/**
World-stopped marking ends: every call of GC_mark_some decreases a lexicographic measure, however
often the mark stack overflows.  It does so whether or not the mark stack can be enlarged, with one
exception: with GC_parallel, when the static data alone may overflow it.
 */
module MarkTermination {
  import opened MarkModel
  import opened MarkSafety

  ghost function Unmarked(s: State): nat { |s.heap.home.Keys - s.marked| }

  /** How far the phase is from the end, as long as nothing new is marked. */
  ghost function Rank(s: State): nat {
    match s.phase
    case Idle => 0
    case RootsPushed => 1
    case PartiallyInvalid => 2
    case Invalid => if !s.objectsMarked then 6 else if s.scanPtr == 0 then 3 else 4
    case _ => 5
  }

  /** A number above all these block numbers. */
  ghost function Above(ks: set<nat>): nat {
    if ks == {} then 0
    else
      var k: nat :| k in ks;
      var n := Above(ks - {k});
      if n <= k then k + 1 else n
  }

  lemma {:induction false} AboveAll(ks: set<nat>, k: nat)
    requires k in ks
    ensures k < Above(ks)
  {
    var k0: nat :| k0 in ks && Above(ks) == var n := Above(ks - {k0}); if n <= k0 then k0 + 1 else n;
    if k != k0 { AboveAll(ks - {k0}, k); }
  }

  /** How far the scan still has to go. */
  ghost function Ahead(s: State): nat {
    var top := Above(s.heap.blocks.Keys);
    if s.scanPtr <= top then top - s.scanPtr else 0
  }

  /** Words on the mark stack, plus one for each entry. */
  ghost function Work(stack: seq<Entry>): nat {
    if stack == [] then 0
    else
      var e := stack[|stack| - 1];
      Work(stack[..|stack| - 1]) + (if e.lo <= e.hi then e.hi - e.lo else 0) + 1
  }

  /** The entries that GC_push_roots pushes for static data. */
  function StaticEntries(s: State): seq<Entry> {
    seq(|s.statics|, k requires 0 <= k < |s.statics| => Entry(StaticArea(k), 0, |s.statics[k]|))
  }

  /** A mark stack of this size is large enough for parallel marking from the static data. */
  function StaticBound(s: State): nat { StackBound(StaticEntries(s)) }

  function Deficit(s: State): nat { if s.capacity < StaticBound(s) then StaticBound(s) - s.capacity else 0 }

  /** Parallel marking may still start with other entries on the mark stack than those of static data. */
  ghost predicate Mixed(s: State) {
    s.parallel &&
    match s.phase
    case PushRescuers => true
    case PushUncollectable => true
    case RootsPushed => s.stack != StaticEntries(s)
    case Invalid => !s.objectsMarked
    case _ => false
  }

  datatype Measure = Measure(unmarked: nat, mixed: nat, deficit: nat, rank: nat, ahead: nat, work: nat)

  ghost function MeasureOf(s: State): Measure {
    Measure(Unmarked(s), if Mixed(s) then 1 else 0, Deficit(s), Rank(s), Ahead(s), Work(s.stack))
  }

  datatype Order = Lower | NotLower

  lemma CompareTransitive(a: Measure, b: Measure, c: Measure)
    requires Compare(a, b) == Lower && (b == c || Compare(b, c) == Lower)
    ensures Compare(a, c) == Lower
  {
  }

  /** The lexicographic order. */
  function Compare(a: Measure, b: Measure): Order {
    if a.unmarked != b.unmarked then (if a.unmarked < b.unmarked then Lower else NotLower)
    else if a.mixed != b.mixed then (if a.mixed < b.mixed then Lower else NotLower)
    else if a.deficit != b.deficit then (if a.deficit < b.deficit then Lower else NotLower)
    else if a.rank != b.rank then (if a.rank < b.rank then Lower else NotLower)
    else if a.ahead != b.ahead then (if a.ahead < b.ahead then Lower else NotLower)
    else if a.work < b.work then Lower else NotLower
  }

  /** The order of measures, as `decreases` compares them. */
  predicate Smaller(m: Measure, n: Measure) {
    || m.unmarked < n.unmarked
    || (m.unmarked == n.unmarked && m.mixed < n.mixed)
    || (m.unmarked == n.unmarked && m.mixed == n.mixed && m.deficit < n.deficit)
    || (m.unmarked == n.unmarked && m.mixed == n.mixed && m.deficit == n.deficit
        && (m.rank < n.rank || (m.rank == n.rank && (m.ahead < n.ahead || (m.ahead == n.ahead && m.work < n.work)))))
  }

  lemma LowerOrder(m: Measure, n: Measure)
    ensures Compare(m, n) == Lower <==> Smaller(m, n)
  {
  }

  ghost predicate Closer(t: State, s: State) {
    Compare(MeasureOf(t), MeasureOf(s)) == Lower
  }

  // ---------- nothing is pushed unless something is marked ----------

  lemma {:induction false} ScanWordsIdle(s: State, ws: seq<Word>, from: nat, hi: nat)
    requires INITIAL_MARK_STACK_SIZE <= s.capacity
    requires ScanWords(s, ws, from, hi).marked == s.marked
    ensures ScanWords(s, ws, from, hi) == s
    decreases hi - from
  {
    if from < hi && from < |ws| {
      var t := PushContents(s, ws[from]);
      PushContentsPushed(s, ws[from]);
      ScanWordsPushed(t, ws, from + 1, hi);
      assert t.marked == s.marked;
      ScanWordsIdle(s, ws, from + 1, hi);
    }
  }

  lemma WithoutPieceWork(stack: seq<Entry>)
    requires 0 < |stack|
    ensures Work(WithoutPiece(stack)) < Work(stack)
  {
    var e := stack[|stack| - 1];
    var rest := stack[..|stack| - 1];
    if PieceEnd(e) < e.hi {
      assert (rest + [e.(lo := PieceEnd(e))])[..|rest|] == rest;
    }
  }

  lemma {:induction false} MarkFromWork(s: State, credit: int)
    requires |s.stack| <= s.capacity && INITIAL_MARK_STACK_SIZE <= s.capacity && WordsOk(s)
    ensures var t := MarkFrom(s, credit);
      t.marked == s.marked ==>
        && t == s.(stack := t.stack, objectsMarked := t.objectsMarked)
        && Work(t.stack) <= Work(s.stack)
        && (0 <= credit && 0 < |s.stack| ==> Work(t.stack) < Work(s.stack))
    decreases if credit < 0 then 0 else credit + 1, |s.stack|
  {
    if 0 <= credit && 0 < |s.stack| {
      var e := s.stack[|s.stack| - 1];
      var r := MarkStep(s);
      MarkStepOk(s);
      MarkFromOk(r, credit - Cost(e));
      MarkFromWork(r, credit - Cost(e));
      if MarkFrom(s, credit).marked == s.marked {
        ScanWordsIdle(s.(stack := WithoutPiece(s.stack), objectsMarked := true), WordsOf(s, e.src), e.lo, PieceEnd(e));
        WithoutPieceWork(s.stack);
      }
    }
  }

  lemma CloserByMark(s: State, t: State)
    requires t.heap == s.heap && s.marked <= t.marked <= s.heap.home.Keys && t.marked != s.marked
    ensures Closer(t, s)
  {
    var o :| o in t.marked && o !in s.marked;
    assert o in s.heap.home.Keys - s.marked && o !in s.heap.home.Keys - t.marked;
    SmallerSet(s.heap.home.Keys - t.marked, s.heap.home.Keys - s.marked);
    hide Mixed, Deficit, Rank, Ahead;
  }

  /** What a step keeps that marks nothing, unless it is a fruitless parallel phase. */
  ghost predicate NoWorse(s: State, t: State) {
    && t.heap == s.heap && t.marked == s.marked && t.statics == s.statics && s.capacity <= t.capacity
    && (Mixed(t) ==> Mixed(s))
  }

  lemma SameStatics(s: State, t: State)
    requires t.statics == s.statics
    ensures StaticEntries(t) == StaticEntries(s) && StaticBound(t) == StaticBound(s)
    ensures s.capacity <= t.capacity ==> Deficit(t) <= Deficit(s)
  {
    assert StaticEntries(t) == StaticEntries(s);
    hide StackBound;
  }

  lemma CloserByRank(s: State, t: State)
    requires NoWorse(s, t) && Rank(t) < Rank(s)
    ensures Closer(t, s)
  {
    SameStatics(s, t);
    hide Mixed, Deficit, Rank, Ahead;
  }

  lemma CloserByScan(s: State, t: State)
    requires NoWorse(s, t) && Rank(t) <= Rank(s) && Ahead(t) < Ahead(s)
    ensures Closer(t, s)
  {
    SameStatics(s, t);
    hide Mixed, Deficit, Rank, Ahead;
  }

  lemma CloserByWork(s: State, t: State)
    requires NoWorse(s, t) && Rank(t) <= Rank(s) && t.scanPtr == s.scanPtr
    requires Work(t.stack) < Work(s.stack)
    ensures Closer(t, s)
  {
    SameStatics(s, t);
    hide Mixed, Deficit, Rank;
  }

  lemma SmallerSet<T>(a: set<T>, b: set<T>)
    requires a < b
    ensures |a| < |b|
  {
    assert b == a + (b - a);
    assert b - a != {};
  }

  lemma MarkFromStackCloser(s: State)
    requires Inv(s) && Tracked(s) && 0 < |s.stack| && (s.phase != Invalid || s.objectsMarked) && (s.phase == RootsPushed ==> !s.parallel)
    ensures Closer(MarkFromStack(s), s)
  {
    var r := s.(objectsMarked := true);
    var t := MarkFromStack(s);
    MarkFromStackInv(s);
    WordsOkSame(s, r);
    MarkFromWork(r, HBLK_WORDS);
    assert s.marked <= t.marked <= s.heap.home.Keys && t.heap == s.heap;
    hide Inv, Closer, MarkFromStack, StaticEntries;
    if t.marked == s.marked { CloserByWork(s, t); } else { CloserByMark(s, t); }
  }

  // ---------- scanning blocks ----------

  lemma {:induction false} PushMarkedFits(s: State, objs: seq<Obj>, i: nat)
    requires i <= |objs| && |s.stack| + |objs| - i <= s.capacity
    ensures PushMarkedObjects(s, objs, i).phase == s.phase
    decreases |objs| - i
  {
    if i < |objs| {
      PushMarkedFits(if objs[i] in s.marked then PushObj(s, objs[i]) else s, objs, i + 1);
    }
  }

  /** One block's objects fit on the mark stack, and the scan moves past the block. */
  lemma PushNextCloser(s: State, f: Filter)
    requires Inv(s) && NextMatch(s, s.scanPtr, f) in s.heap.blocks
    requires |s.stack| + MAX_BLOCK_OBJECTS <= s.capacity
    ensures var t := PushNext(s, f);
      t.phase == s.phase && t.marked == s.marked && t.heap == s.heap && Ahead(t) < Ahead(s) && s.scanPtr < t.scanPtr
      && t.statics == s.statics && t.capacity == s.capacity && t.parallel == s.parallel && (s.objectsMarked ==> t.objectsMarked)
  {
    var k := NextMatch(s, s.scanPtr, f);
    NextMatchIs(s, s.scanPtr, f);
    var t := PushNext(s, f);
    PushMarkedPushed(s, k);
    PushMarkedFits(s.(objectsMarked := true), s.heap.blocks[k].objs, 0);
    AboveAll(s.heap.blocks.Keys, k);
  }

  lemma {:induction false} StaticsAppended(s: State, k: nat)
    requires k <= |s.statics| && !PushStatics(s, k).aborted
    ensures PushStatics(s, k).stack == s.stack + StaticEntries(s)[k..]
    decreases |s.statics| - k
  {
    if k < |s.statics| {
      var e := Entry(StaticArea(k), 0, |s.statics[k]|);
      var r := s.(stack := s.stack + [e]);
      StaticsAppended(r, k + 1);
      assert PushStatics(s, k) == PushStatics(r, k + 1);
      hide PushStatics;
      SameStatics(s, r);
      assert StaticEntries(s)[k] == e;
      hide StaticEntries;
      assert StaticEntries(s)[k..] == [e] + StaticEntries(s)[k + 1..];
    } else {
      assert StaticEntries(s)[k..] == [];
    }
  }

  /** The scan of the whole heap leaves nothing but static data for parallel marking. */
  lemma RootsCloser(s: State)
    requires Sane(s) && (s.phase == PushRescuers || s.phase == PushUncollectable || s.phase == PartiallyInvalid)
    requires s.phase == PartiallyInvalid ==> s.stack == []
    ensures var t := AfterRoots(PushRoots(s.(scanPtr := 0)));
      t.aborted || Closer(t, s)
  {
    var r := s.(scanPtr := 0);
    PushStaticsPushed(r, 0);
    var u := PushStatics(r, 0);
    var t := AfterRoots(PushRoots(r));
    if !t.aborted {
      ScanWordsPushed(u, u.stackRoots, 0, |u.stackRoots|);
      if t.marked == s.marked {
        ScanWordsIdle(u, u.stackRoots, 0, |u.stackRoots|);
        StaticsAppended(r, 0);
        SameStatics(s, t);
        hide PushRoots, PushStatics, AfterRoots, Sane, StaticEntries;
        CloserByRank(s, t);
      } else {
        CloserByMark(s, t);
      }
    }
  }

  lemma ScanCloser(s: State, f: Filter)
    requires Inv(s) && FilterFits(s.phase, f) && s.phase != Invalid
    requires |s.stack| + MAX_BLOCK_OBJECTS <= s.capacity && (s.phase == PartiallyInvalid ==> s.stack == [])
    ensures var t := PushNext(s, f);
      var u := if t.scanPtr == 0 then AfterRoots(PushRoots(t)) else t;
      u.aborted || Closer(u, s)
  {
    if NextMatch(s, s.scanPtr, f) in s.heap.blocks {
      PushNextCloser(s, f);
      hide Inv, NextMatch, Closer, PushNext, Ahead;
      SameRank(s, PushNext(s, f));
      CloserByScan(s, PushNext(s, f));
    } else {
      assert PushNext(s, f) == s.(scanPtr := 0) && Sane(s);
      hide Inv, NextMatch, Closer, PushNext, Sane;
      RootsCloser(s);
    }
  }

  lemma SameRank(s: State, t: State)
    requires t.phase == s.phase && t.phase != RootsPushed && t.parallel == s.parallel
    requires s.phase != Invalid || (s.scanPtr != 0 && t.scanPtr != 0 && t.objectsMarked)
    ensures Rank(t) <= Rank(s) && (Mixed(t) ==> Mixed(s))
  {
  }

  /** The rest of an invalid scan, whose result is only used to mark from. */
  lemma InvalidScanCloser(s: State)
    requires Inv(s) && s.phase == Invalid && s.objectsMarked && s.stack == [] && s.scanPtr != 0
    ensures Closer(PushNext(s, AnyBlock), s)
  {
    if NextMatch(s, s.scanPtr, AnyBlock) in s.heap.blocks {
      PushNextCloser(s, AnyBlock);
      CloserByScan(s, PushNext(s, AnyBlock));
    } else {
      CloserByRank(s, PushNext(s, AnyBlock));
    }
  }

  lemma CloserStart(s: State, r: State, t: State)
    requires Closer(t, r) && NoWorse(s, r) && Rank(r) < Rank(s)
    ensures Closer(t, s)
  {
    SameStatics(s, r);
    hide Mixed, Deficit, Rank, Ahead, Work;
  }

  lemma HeapScanCloser(s: State)
    requires Inv(s) && Tracked(s) && !s.aborted && s.phase == PartiallyInvalid && s.stack == []
    ensures HeapScan(s).aborted || Closer(HeapScan(s), s)
  {
    ScanCloser(s, AnyBlock);
    PushNextInv(s, AnyBlock);
    hide Inv, Tracked, PushNext, AfterRoots, PushRoots, Closer, Settled;
  }

  /** The first step of a rescan of the whole heap. */
  lemma StartRescanCloser(s: State, ok: bool)
    requires Inv(s) && Tracked(s) && !s.aborted && s.objectsMarked && s.stack == []
    requires s.phase == Invalid && s.scanPtr == 0
    ensures HeapScan(StartRescan(s, ok)).aborted || Closer(HeapScan(StartRescan(s, ok)), s)
  {
    var r := StartRescan(s, ok);
    StartRescanInv(s, ok);
    assert NoWorse(s, r) && Rank(r) < Rank(s);
    hide Inv, HeapScan, Closer, StartRescan, NoWorse, Rank;
    HeapScanCloser(r);
    if !HeapScan(r).aborted { CloserStart(s, r, HeapScan(r)); }
  }

  lemma InvalidCloser(s: State, ok: bool)
    requires Inv(s) && Tracked(s) && !s.aborted && s.objectsMarked && s.stack == []
    requires s.phase == Invalid || s.phase == PartiallyInvalid
    ensures HeapScan(StartRescan(s, ok)).aborted || Closer(HeapScan(StartRescan(s, ok)), s)
  {
    if s.phase == Invalid && s.scanPtr == 0 {
      StartRescanCloser(s, ok);
    } else if s.phase == Invalid {
      InvalidScanCloser(s);
      PushNextInv(s, AnyBlock);
      hide Inv, Tracked, Closer, PushNext, AfterRoots, PushRoots;
    } else {
      hide Closer, HeapScan;
      HeapScanCloser(s);
    }
  }

  lemma SameMeasure(s: State)
    ensures MeasureOf(s.(tooSmall := true)) == MeasureOf(s)
  {
  }

  lemma MarkingCloser(s: State)
    requires Inv(s) && Tracked(s) && 0 < |s.stack| && (s.phase != Invalid || s.objectsMarked) && (s.phase == RootsPushed ==> !s.parallel)
    ensures Closer(MarkFromStack(s), s) && Closer(MarkFromStack(s.(tooSmall := true)), s)
  {
    MarkFromStackCloser(s);
    TooSmallInv(s);
    MarkFromStackCloser(s.(tooSmall := true));
    SameMeasure(s);
  }

  /** Parallel marking from static data alone marks nothing, and the mark stack that it overflows cannot be enlarged. */
  ghost predicate Stuck(s: State, a: Answer) {
    s.phase == RootsPushed && s.parallel && Fruitless(s, a) && s.stack == StaticEntries(s) && !a.ok
  }

  /** That takes a mark stack that is too small for the static data. */
  lemma StuckTooSmall(s: State, a: Answer)
    requires Stuck(s, a) && Possible(s, a)
    ensures s.capacity < StaticBound(s)
  {
    assert Fruitless(s, a) ==> s.capacity < StackBound(s.stack);
    hide StackBound, StaticEntries;
  }

  lemma AfterFruitless(s: State, a: Answer)
    requires s.phase == RootsPushed && Fruitless(s, a)
    ensures var t := AfterParallelMark(s, a).s;
      && t.phase == Invalid && t == s.(stack := [], phase := Invalid, tooSmall := t.tooSmall, capacity := t.capacity)
      && t.capacity == if a.ok then 2 * s.capacity else s.capacity
  {
  }

  /** A fruitless phase that is not stuck has other entries to lose, or the mark stack becomes larger. */
  lemma FruitlessCloser(s: State, a: Answer)
    requires s.phase == RootsPushed && s.parallel && s.objectsMarked && 0 < s.capacity && ParallelMarks(s, a) && Fruitless(s, a)
    ensures Closer(AfterParallelMark(s, a).s, s) <==> !Stuck(s, a)
  {
    var t := AfterParallelMark(s, a).s;
    AfterFruitless(s, a);
    assert s.capacity < StackBound(s.stack);
    hide AfterParallelMark, ParallelMarks, StackBound, StaticEntries;
    SameStatics(s, t);
    assert Unmarked(t) == Unmarked(s) && !Mixed(t);
    hide Ahead, Work, Unmarked;
  }

  lemma AfterParallel(s: State, a: Answer)
    requires s.phase == RootsPushed
    ensures var t := AfterParallelMark(s, a).s;
      && t.heap == s.heap && t.marked == a.marks && t.statics == s.statics && s.capacity <= t.capacity && (!a.overflow ==> t.phase == Idle)
  {
  }

  /** Parallel marking finishes or marks something, or it loses entries for which the larger mark stack has room. */
  lemma ParallelCloser(s: State, a: Answer)
    requires s.phase == RootsPushed && s.parallel && s.objectsMarked && 0 < s.capacity && ParallelMarks(s, a)
    ensures Closer(AfterParallelMark(s, a).s, s) <==> !Stuck(s, a)
  {
    var t := AfterParallelMark(s, a).s;
    AfterParallel(s, a);
    assert s.marked <= a.marks <= s.heap.home.Keys;
    hide AfterParallelMark, ParallelMarks, StaticEntries, Closer;
    if a.marks != s.marked {
      CloserByMark(s, t);
    } else if !a.overflow {
      CloserByRank(s, t);
    } else {
      FruitlessCloser(s, a);
    }
  }

  lemma ParallelSane(s: State)
    requires Inv(s) && s.phase == RootsPushed
    ensures s.objectsMarked && 0 < s.capacity
  {
  }

  /** A call of GC_mark_some gets closer to the end of the mark phase exactly if it does not get stuck. */
  lemma MarkSomeCloser(s: State, a: Answer)
    requires Inv(s) && Tracked(s) && !s.aborted && s.phase != Idle && Possible(s, a)
    ensures MarkSome(s, a).s.aborted || (Closer(MarkSome(s, a).s, s) <==> !Stuck(s, a))
  {
    if IsMarking(s) {
      MarkingCloser(s);
    } else if s.phase == PushRescuers {
      ScanCloser(s, DirtyBlock);
    } else if s.phase == PushUncollectable {
      ScanCloser(s, UncollectableBlock);
    } else if s.phase == RootsPushed && s.parallel {
      ParallelSane(s);
      ParallelCloser(s, a);
    } else if s.phase == RootsPushed || !s.objectsMarked {
      CloserByRank(s, MarkSome(s, a).s);
    } else {
      InvalidCloser(s, a.ok);
    }
  }

  /** GC_mark_some will mark from the mark stack in this state. */
  ghost predicate IsMarking(s: State) {
    match s.phase
    case PushRescuers => s.capacity - INITIAL_MARK_STACK_SIZE / 2 <= |s.stack| - 1
    case PushUncollectable => s.capacity / 4 <= |s.stack| - 1
    case RootsPushed => 0 < |s.stack| && !s.parallel
    case _ => 0 < |s.stack| && s.objectsMarked
  }

  // ---------- static data never overflows the stack ----------

  lemma {:induction false} PushStaticsFits(s: State, k: nat)
    requires k <= |s.statics| && |s.stack| + |s.statics| - k <= s.capacity && !s.aborted
    ensures !PushStatics(s, k).aborted
    decreases |s.statics| - k
  {
    if k < |s.statics| {
      PushStaticsFits(s.(stack := s.stack + [Entry(StaticArea(k), 0, |s.statics[k]|)]), k + 1);
    }
  }

  lemma PushRootsFits(s: State)
    requires |s.stack| + |s.statics| <= s.capacity && INITIAL_MARK_STACK_SIZE <= s.capacity && !s.aborted
    ensures !AfterRoots(PushRoots(s)).aborted
  {
    PushStaticsFits(s, 0);
    PushStaticsPushed(s, 0);
    var t := PushStatics(s, 0);
    ScanWordsPushed(t, t.stackRoots, 0, |t.stackRoots|);
  }

  /** GC_push_all does not abort if static data comes in at most INITIAL_MARK_STACK_SIZE / 2 pieces. */
  lemma MarkSomeNoAbort(s: State, a: Answer)
    requires Inv(s) && Tracked(s) && !s.aborted && |s.statics| <= INITIAL_MARK_STACK_SIZE / 2
    ensures !MarkSome(s, a).s.aborted
  {
    if s.phase != Idle && IsMarking(s) {
      TooSmallInv(s);
      MarkFromStackInv(s);
      MarkFromStackInv(s.(tooSmall := true));
    } else if s.phase == PushRescuers {
      ScanNoAbort(s, DirtyBlock);
    } else if s.phase == PushUncollectable {
      ScanNoAbort(s, UncollectableBlock);
    } else if (s.phase == Invalid || s.phase == PartiallyInvalid) && s.objectsMarked {
      InvalidNoAbort(s, a.ok);
    }
  }

  lemma InvalidNoAbort(s: State, ok: bool)
    requires Inv(s) && Tracked(s) && !s.aborted && |s.statics| <= INITIAL_MARK_STACK_SIZE / 2
    requires (s.phase == Invalid || s.phase == PartiallyInvalid) && s.objectsMarked && s.stack == []
    ensures !HeapScan(StartRescan(s, ok)).aborted
  {
    if s.scanPtr == 0 && s.phase == Invalid { StartRescanInv(s, ok); }
    ScanNoAbort(StartRescan(s, ok), AnyBlock);
    hide Inv, Tracked, PushNext, AfterRoots, PushRoots;
  }

  lemma ScanNoAbort(s: State, f: Filter)
    requires Inv(s) && Tracked(s) && !s.aborted && FilterFits(s.phase, f)
    requires s.objectsMarked || s.phase != Invalid
    requires |s.stack| + |s.statics| <= s.capacity
    ensures var t := PushNext(s, f); !t.aborted && (t.scanPtr == 0 ==> !AfterRoots(PushRoots(t)).aborted)
  {
    PushNextInv(s, f);
    if PushNext(s, f).scanPtr == 0 { PushRootsFits(PushNext(s, f)); }
  }

  /** Only the call that reports the end of the mark phase leads back to Idle. */
  lemma MarkSomeNotIdle(s: State, a: Answer)
    requires Inv(s) && Tracked(s) && !s.aborted && s.phase != Idle
    ensures var r := MarkSome(s, a); !r.s.aborted ==> (r.done <==> r.s.phase == Idle)
  {
    if IsMarking(s) {
      TooSmallInv(s);
      MarkFromStackInv(s);
      MarkFromStackInv(s.(tooSmall := true));
    } else if s.phase == PushRescuers {
      ScanNotIdle(s, DirtyBlock);
    } else if s.phase == PushUncollectable {
      ScanNotIdle(s, UncollectableBlock);
    } else if (s.phase == Invalid || s.phase == PartiallyInvalid) && s.objectsMarked {
      InvalidNotIdle(s, a.ok);
    }
  }

  lemma InvalidNotIdle(s: State, ok: bool)
    requires Inv(s) && Tracked(s) && !s.aborted
    requires (s.phase == Invalid || s.phase == PartiallyInvalid) && s.objectsMarked && s.stack == []
    ensures var t := HeapScan(StartRescan(s, ok)); !t.aborted ==> t.phase != Idle
  {
    if s.scanPtr == 0 && s.phase == Invalid { StartRescanInv(s, ok); }
    ScanNotIdle(StartRescan(s, ok), AnyBlock);
    PushNextInv(StartRescan(s, ok), AnyBlock);
    hide Inv, Tracked, PushNext, AfterRoots, PushRoots, Settled;
  }

  lemma ScanNotIdle(s: State, f: Filter)
    requires Inv(s) && Tracked(s) && !s.aborted && FilterFits(s.phase, f)
    requires s.objectsMarked || s.phase != Invalid
    ensures var t := PushNext(s, f);
      t.phase != Idle && (t.scanPtr == 0 && s.phase != Invalid && !AfterRoots(PushRoots(t)).aborted ==> AfterRoots(PushRoots(t)).phase != Idle)
  {
    PushNextInv(s, f);
    if PushNext(s, f).scanPtr == 0 && s.phase != Invalid { EndOfScanInv(s); }
  }

  /** What a call of GC_mark_some comes to, unless it aborts. */
  ghost predicate Advances(s: State, r: Outcome) {
    r.s.aborted || (Inv(r.s) && Closer(r.s, s) && (r.done <==> r.s.phase == Idle))
  }

  lemma MarkSomeAdvances(s: State, a: Answer)
    requires Inv(s) && Tracked(s) && !s.aborted && s.phase != Idle && Possible(s, a) && !Stuck(s, a)
    ensures Advances(s, MarkSome(s, a)) && (|s.statics| <= INITIAL_MARK_STACK_SIZE / 2 ==> !MarkSome(s, a).s.aborted)
  {
    MarkSomeInv(s, a);
    assert MarkSome(s, a).s.aborted || Inv(MarkSome(s, a).s);
    hide Inv, Closer, MarkSome, StepOk;
    MarkSomeCloser(s, a);
    MarkSomeNotIdle(s, a);
    if |s.statics| <= INITIAL_MARK_STACK_SIZE / 2 { MarkSomeNoAbort(s, a); }
  }
}
