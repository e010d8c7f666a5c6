/**
Invariant I of the marker (libs/gc/include/private/gc_pmark.h:455-498), word by word, and the proof
that every step of the collector and of the mutator keeps it.
 */
module MarkSafety {
  import opened MarkModel

  // ---------- the invariant ----------

  /** Word i of src lies in a range on the mark stack. */
  ghost predicate Covered(stack: seq<Entry>, src: Source, i: nat) {
    exists k :: 0 <= k < |stack| && stack[k].src == src && stack[k].lo <= i < stack[k].hi
  }

  /** The current phase will still scan word i of o. */
  ghost predicate Owed(s: State, o: Obj, i: nat)
    requires Scanned(s.heap, o)
  {
    var h := s.heap.home[o];
    match s.phase
    case Idle => false
    case PushRescuers => PageOf(s.heap, o, i) in s.grungy && s.scanPtr <= h
    case PushUncollectable => s.heap.blocks[h].kind == UNCOLLECTABLE && s.scanPtr <= h
    case RootsPushed => false
    case PartiallyInvalid => s.scanPtr <= h
    case Invalid => true
  }

  /** Sources whose words must be accounted for: marked objects, and roots once they were pushed. */
  ghost predicate Live(s: State, src: Source) {
    match src
    case Object(o) => o in s.marked
    case StaticArea(k) => s.stopped && s.phase == RootsPushed
  }

  ghost predicate Exempt(s: State, src: Source, i: nat) {
    match src
    case Object(o) => Scanned(s.heap, o) && (PageOf(s.heap, o, i) in s.dirty || Owed(s, o, i) || (o, i) in s.stray)
    case StaticArea(k) => false
  }

  ghost predicate WordOk(s: State, src: Source, i: nat)
    requires i < |WordsOf(s, src)|
  {
    var w := WordsOf(s, src)[i];
    w in s.heap.home ==> w in s.marked || Covered(s.stack, src, i) || Exempt(s, src, i)
  }

  /** Invariant I, except perhaps for words lo (incl.) to hi (excl.) of src0. */
  ghost predicate WordsOkExcept(s: State, src0: Source, lo: nat, hi: nat) {
    forall src, i: nat :: Live(s, src) && i < |WordsOf(s, src)| && !(src == src0 && lo <= i < hi) ==> WordOk(s, src, i)
  }

  /** Invariant I. */
  ghost predicate WordsOk(s: State) {
    forall src, i: nat :: Live(s, src) && i < |WordsOf(s, src)| ==> WordOk(s, src, i)
  }

  /** Every block whose marks survive GC_clear_marks is one the collector rescans, or has no pointers. */
  ghost predicate KindsRescanned(s: State) {
    forall k :: k in s.heap.blocks && IsUncollectable(s.heap.blocks[k].kind, s.atomicUncollectable) ==>
      s.heap.blocks[k].kind == UNCOLLECTABLE || !HasDescr(s.heap.blocks[k].kind)
  }

  ghost predicate OnlyKeptMarked(s: State) {
    forall o :: o in s.marked ==> KeepsMarks(s, o)
  }

  /** The state is one the marker may be run in: dirty bits are kept, or nothing writes. */
  ghost predicate Tracked(s: State) { s.incremental || s.stopped }

  ghost predicate Sane(s: State) {
    && HeapWf(s.heap)
    && s.marked <= s.heap.home.Keys
    && INITIAL_MARK_STACK_SIZE <= s.capacity && |s.stack| <= s.capacity
    && (s.phase == Idle ==> s.stack == [])
    && (!s.objectsMarked ==>
          s.stack == [] && s.phase in {Idle, PushRescuers, PushUncollectable, Invalid})
    && (!s.incremental || s.stopped ==> s.dirty == {})
  }

  ghost predicate RootsOk(s: State) {
    s.stopped && s.phase == RootsPushed ==>
      forall i :: 0 <= i < |s.stackRoots| && s.stackRoots[i] in s.heap.home ==> s.stackRoots[i] in s.marked
  }

  ghost predicate FreshStartOk(s: State) {
    !s.objectsMarked && s.phase == Invalid ==> s.scanPtr == 0
  }

  ghost predicate Inv(s: State) {
    match Tracked(s)
    case true => Always(s) && FreshStartOk(s) && WordsOk(s)
    case false => Always(s)
  }

  ghost predicate Always(s: State) {
    && Sane(s)
    && RootsOk(s)
    && KindsRescanned(s)
    && (!s.objectsMarked ==> OnlyKeptMarked(s))
  }

  // ---------- pushing ----------

  /** Pushing changes only these parts, never unmarks, and keeps the stack or invalidates it. */
  ghost predicate Pushed(s: State, t: State) {
    && t == s.(marked := t.marked, stack := t.stack, phase := t.phase, tooSmall := t.tooSmall)
    && s.marked <= t.marked && t.marked <= s.marked + s.heap.home.Keys
    && (t.phase == Invalid || (t.phase == s.phase && s.stack <= t.stack))
    && (|s.stack| <= s.capacity ==> |t.stack| <= t.capacity)
  }

  lemma PushedTransitive(s: State, t: State, u: State)
    requires Pushed(s, t) && Pushed(t, u)
    ensures Pushed(s, u)
  {
  }

  lemma CoveredMonotone(a: seq<Entry>, b: seq<Entry>, src: Source, i: nat)
    requires Covered(a, src, i) && a <= b
    ensures Covered(b, src, i)
  {
    var k :| 0 <= k < |a| && a[k].src == src && a[k].lo <= i < a[k].hi;
    assert b[k] == a[k];
  }

  lemma WordOkPushed(s: State, t: State, src: Source, i: nat)
    requires Pushed(s, t) && i < |WordsOf(s, src)| && WordOk(s, src, i)
    requires Live(t, src)
    ensures WordOk(t, src, i)
  {
    if t.phase != Invalid && Covered(s.stack, src, i) {
      CoveredMonotone(s.stack, t.stack, src, i);
    }
  }

  /** An object whose words were just pushed, or whose mark stack entry was dropped. */
  ghost predicate Accounted(s: State, o: Obj) {
    s.phase == Invalid || forall i: nat :: i < |FieldsOf(s.heap, o)| ==> Covered(s.stack, Object(o), i)
  }

  lemma DiscardsFit()
    ensures 1 <= DISCARDS <= INITIAL_MARK_STACK_SIZE
  {
  }

  lemma PushEntryPushed(s: State, e: Entry)
    requires INITIAL_MARK_STACK_SIZE <= s.capacity
    ensures Pushed(s, PushEntry(s, e)) && PushEntry(s, e).marked == s.marked
    ensures PushEntry(s, e).phase != Invalid ==> PushEntry(s, e).stack == s.stack + [e]
  {
    DiscardsFit();
    hide DISCARDS, INITIAL_MARK_STACK_SIZE;
    var t := PushEntry(s, e);
    if |s.stack| < s.capacity {
      assert t == s.(stack := s.stack + [e]);
    } else {
      assert t.phase == Invalid && (|s.stack| <= s.capacity ==> |t.stack| <= t.capacity);
    }
  }

  lemma PushObjPushed(s: State, o: Obj)
    requires INITIAL_MARK_STACK_SIZE <= s.capacity
    ensures Pushed(s, PushObj(s, o)) && PushObj(s, o).marked == s.marked
    ensures Accounted(PushObj(s, o), o)
  {
    if Scanned(s.heap, o) {
      var e := Entry(Object(o), 0, |s.heap.contents[o]|);
      PushEntryPushed(s, e);
      hide PushEntry;
      var t := PushObj(s, o);
      if t.phase != Invalid { assert t.stack[|t.stack| - 1] == e; }
    }
  }

  lemma PushContentsPushed(s: State, w: Word)
    requires INITIAL_MARK_STACK_SIZE <= s.capacity
    ensures Pushed(s, PushContents(s, w))
    ensures w in s.heap.home ==> w in PushContents(s, w).marked
  {
    if w in s.heap.home && w !in s.marked {
      PushObjPushed(s.(marked := s.marked + {w}), w);
    }
  }

  lemma PushContentsOk(s: State, w: Word, src0: Source, lo: nat, hi: nat)
    requires INITIAL_MARK_STACK_SIZE <= s.capacity
    requires WordsOkExcept(s, src0, lo, hi)
    ensures WordsOkExcept(PushContents(s, w), src0, lo, hi)
  {
    var t := PushContents(s, w);
    PushContentsPushed(s, w);
    if w in s.heap.home && w !in s.marked {
      PushObjPushed(s.(marked := s.marked + {w}), w);
    }
    forall src, i: nat | Live(t, src) && i < |WordsOf(t, src)| && !(src == src0 && lo <= i < hi)
      ensures WordOk(t, src, i)
    {
      if Live(s, src) {
        WordOkPushed(s, t, src, i);
      } else {
        assert src == Object(w) && Accounted(t, w);
      }
    }
  }

  lemma ScanWordsPushed(s: State, ws: seq<Word>, from: nat, hi: nat)
    requires INITIAL_MARK_STACK_SIZE <= s.capacity
    ensures Pushed(s, ScanWords(s, ws, from, hi))
    ensures forall i :: from <= i < hi && i < |ws| && ws[i] in s.heap.home ==> ws[i] in ScanWords(s, ws, from, hi).marked
    decreases hi - from
  {
    if from < hi && from < |ws| {
      var t := PushContents(s, ws[from]);
      PushContentsPushed(s, ws[from]);
      ScanWordsPushed(t, ws, from + 1, hi);
      PushedTransitive(s, t, ScanWords(s, ws, from, hi));
    }
  }

  lemma ScanWordsOk(s: State, ws: seq<Word>, from: nat, hi: nat, src0: Source, lo: nat)
    requires INITIAL_MARK_STACK_SIZE <= s.capacity
    requires WordsOkExcept(s, src0, lo, hi)
    ensures WordsOkExcept(ScanWords(s, ws, from, hi), src0, lo, hi)
    decreases hi - from
  {
    if from < hi && from < |ws| {
      PushContentsPushed(s, ws[from]);
      PushContentsOk(s, ws[from], src0, lo, hi);
      ScanWordsOk(PushContents(s, ws[from]), ws, from + 1, hi, src0, lo);
    }
  }

  // ---------- marking from the mark stack ----------

  /** What the marker changes: marks, stack, phase and its flags; never the heap or the dirty bits. */
  ghost predicate Advanced(s: State, t: State) {
    && t == s.(marked := t.marked, stack := t.stack, phase := t.phase, tooSmall := t.tooSmall,
               objectsMarked := t.objectsMarked)
    && s.marked <= t.marked && t.marked <= s.marked + s.heap.home.Keys
    && (t.phase == Invalid || t.phase == s.phase)
    && |t.stack| <= t.capacity
    && (s.objectsMarked ==> t.objectsMarked)
  }

  /** Taking a piece off the top entry uncovers only the words of that piece. */
  lemma WithoutPieceOk(s: State)
    requires 0 < |s.stack| && WordsOk(s)
    ensures var e := s.stack[|s.stack| - 1];
      WordsOkExcept(s.(stack := WithoutPiece(s.stack), objectsMarked := true), e.src, e.lo, PieceEnd(e))
  {
    var e := s.stack[|s.stack| - 1];
    var t := s.(stack := WithoutPiece(s.stack), objectsMarked := true);
    forall src, i: nat | Live(t, src) && i < |WordsOf(t, src)| && !(src == e.src && e.lo <= i < PieceEnd(e))
      ensures WordOk(t, src, i)
    {
      assert WordOk(s, src, i);
      if Covered(s.stack, src, i) {
        var k :| 0 <= k < |s.stack| && s.stack[k].src == src && s.stack[k].lo <= i < s.stack[k].hi;
        if k < |s.stack| - 1 {
          assert t.stack[k] == s.stack[k];
        } else {
          assert t.stack[|t.stack| - 1].src == src;
        }
      }
    }
  }

  lemma MarkStepOk(s: State)
    requires 0 < |s.stack| <= s.capacity && INITIAL_MARK_STACK_SIZE <= s.capacity
    requires WordsOk(s)
    ensures WordsOk(MarkStep(s)) && Advanced(s, MarkStep(s)) && MarkStep(s).objectsMarked
  {
    var e := s.stack[|s.stack| - 1];
    var r := s.(stack := WithoutPiece(s.stack), objectsMarked := true);
    var t := MarkStep(s);
    WithoutPieceOk(s);
    ScanWordsOk(r, WordsOf(s, e.src), e.lo, PieceEnd(e), e.src, e.lo);
    ScanWordsPushed(r, WordsOf(s, e.src), e.lo, PieceEnd(e));
    forall src, i: nat | Live(t, src) && i < |WordsOf(t, src)|
      ensures WordOk(t, src, i)
    {
      assert WordsOf(t, src) == WordsOf(s, src);
    }
  }

  lemma MarkFromOk(s: State, credit: int)
    requires |s.stack| <= s.capacity && INITIAL_MARK_STACK_SIZE <= s.capacity
    requires WordsOk(s)
    ensures WordsOk(MarkFrom(s, credit)) && Advanced(s, MarkFrom(s, credit))
    decreases if credit < 0 then 0 else credit + 1, |s.stack|
  {
    if 0 <= credit && 0 < |s.stack| {
      MarkStepOk(s);
      MarkFromOk(MarkStep(s), credit - Cost(s.stack[|s.stack| - 1]));
    }
  }

  // ---------- scanning blocks ----------

  lemma PushMarkedObjectsPushed(s: State, objs: seq<Obj>, i: nat)
    requires INITIAL_MARK_STACK_SIZE <= s.capacity
    ensures Pushed(s, PushMarkedObjects(s, objs, i)) && PushMarkedObjects(s, objs, i).marked == s.marked
    ensures forall j :: i <= j < |objs| && objs[j] in s.marked ==> Accounted(PushMarkedObjects(s, objs, i), objs[j])
    decreases |objs| - i
  {
    if i < |objs| {
      var t := if objs[i] in s.marked then PushObj(s, objs[i]) else s;
      PushObjPushed(s, objs[i]);
      PushMarkedObjectsPushed(t, objs, i + 1);
      var u := PushMarkedObjects(s, objs, i);
      PushedTransitive(s, t, u);
      if objs[i] in s.marked {
        AccountedPushed(t, u, objs[i]);
      }
    }
  }

  lemma AccountedPushed(s: State, t: State, o: Obj)
    requires Pushed(s, t) && Accounted(s, o)
    ensures Accounted(t, o)
  {
    if t.phase != Invalid {
      forall i: nat | i < |FieldsOf(t.heap, o)| ensures Covered(t.stack, Object(o), i) {
        CoveredMonotone(s.stack, t.stack, Object(o), i);
      }
    }
  }

  /** After GC_push_marked every marked object of the block is accounted for. */
  lemma PushMarkedPushed(s: State, k: nat)
    requires k in s.heap.blocks && INITIAL_MARK_STACK_SIZE <= s.capacity && HeapWf(s.heap)
    ensures var t := PushMarked(s, s.heap.blocks[k]);
      && Pushed(s.(objectsMarked := t.objectsMarked), t) && t.marked == s.marked
      && (s.objectsMarked ==> t.objectsMarked) && (!t.objectsMarked ==> t == s)
      && forall o :: o in s.marked && o in s.heap.home && s.heap.home[o] == k ==> Accounted(t, o)
  {
    var b := s.heap.blocks[k];
    PushMarkedObjectsPushed(s.(objectsMarked := true), b.objs, 0);
  }

  /** Invariant I holds outright: nothing is left to the rest of the current scan. */
  ghost predicate Settled(s: State) {
    forall o, i: nat :: o in s.marked && i < |FieldsOf(s.heap, o)| ==>
      var w := FieldsOf(s.heap, o)[i];
      w in s.heap.home ==>
        w in s.marked || Covered(s.stack, Object(o), i) || PageOf(s.heap, o, i) in s.dirty || (o, i) in s.stray
  }

  ghost predicate FilterFits(phase: Phase, f: Filter) {
    match f
    case AnyBlock => phase == PartiallyInvalid || phase == Invalid
    case DirtyBlock => phase == PushRescuers
    case UncollectableBlock => phase == PushUncollectable
  }

  lemma PageInBlock(h: Heap, o: Obj, i: nat)
    requires HeapWf(h) && o in h.home && i < |h.contents[o]|
    ensures h.home[o] in h.blocks && h.home[o] <= PageOf(h, o, i) < h.home[o] + h.blocks[h.home[o]].nblks
  {
    assert h.home[o] in h.blocks;
    assert PageOf(h, o, i) < h.home[o] + h.blocks[h.home[o]].nblks;
    hide HeapWf;
    PageFrom(h, o, i);
    hide PageOf;
  }

  lemma PageFrom(h: Heap, o: Obj, i: nat)
    requires o in h.home
    ensures h.home[o] <= PageOf(h, o, i)
  {
  }

  /** A block the scan passes over owes nothing: owed words lie in blocks the filter lets through. */
  lemma OwedBlocksMatch(s: State, f: Filter, o: Obj, i: nat)
    requires HeapWf(s.heap) && FilterFits(s.phase, f) && s.phase != Invalid
    requires Scanned(s.heap, o) && i < |s.heap.contents[o]| && Owed(s, o, i)
    ensures Matches(s, s.heap.home[o], f) && s.scanPtr <= s.heap.home[o]
  {
    PageInBlock(s.heap, o, i);
    hide HeapWf, PageOf;
    if f == DirtyBlock { assert PageOf(s.heap, o, i) in s.grungy; }
  }

  lemma PushNextEnd(s: State, f: Filter)
    requires HeapWf(s.heap) && WordsOk(s) && FilterFits(s.phase, f) && s.phase != Invalid
    requires NextMatch(s, s.scanPtr, f) !in s.heap.blocks
    ensures Settled(s)
  {
    forall o, i: nat | o in s.marked && i < |FieldsOf(s.heap, o)|
      ensures var w := FieldsOf(s.heap, o)[i];
        w in s.heap.home ==> w in s.marked || Covered(s.stack, Object(o), i) || PageOf(s.heap, o, i) in s.dirty || (o, i) in s.stray
    {
      assert FieldsOf(s.heap, o) == WordsOf(s, Object(o));
      assert WordOk(s, Object(o), i);
      if Owed(s, o, i) {
        OwedBlocksMatch(s, f, o, i);
        NextMatchExists(s, s.scanPtr, f, s.heap.home[o]);
      }
    }
  }

  lemma NextMatchExists(s: State, from: nat, f: Filter, k: nat)
    requires k in s.heap.blocks && from <= k && Matches(s, k, f)
    ensures NextMatch(s, from, f) in s.heap.blocks && IsNextMatch(s, from, f, NextMatch(s, from, f))
    ensures NextMatch(s, from, f) <= k
    decreases k - from
  {
    if k' : nat :| k' in s.heap.blocks && from <= k' < k && Matches(s, k', f) {
      NextMatchExists(s, from, f, k');
    } else {
      assert IsNextMatch(s, from, f, k);
    }
  }

  /** The scan has pushed the marked objects of block k, the first that passes the filter, and leads from s to t. */
  ghost predicate BlockPushed(s: State, f: Filter, k: nat, t: State) {
    && IsNextMatch(s, s.scanPtr, f, k)
    && t == s.(marked := t.marked, stack := t.stack, phase := t.phase, tooSmall := t.tooSmall, objectsMarked := t.objectsMarked,
               scanPtr := k + s.heap.blocks[k].nblks)
    && t.marked == s.marked && (t.phase == Invalid || (t.phase == s.phase && s.stack <= t.stack))
    && forall o :: o in s.marked && o in s.heap.home && s.heap.home[o] == k ==> Accounted(t, o)
  }

  lemma ScanMoves(s: State, f: Filter, k: nat, p: State)
    requires IsNextMatch(s, s.scanPtr, f, k) && Pushed(s.(objectsMarked := p.objectsMarked), p) && p.marked == s.marked
    requires forall o :: o in s.marked && o in s.heap.home && s.heap.home[o] == k ==> Accounted(p, o)
    ensures BlockPushed(s, f, k, p.(scanPtr := k + s.heap.blocks[k].nblks))
  {
    var t := p.(scanPtr := k + s.heap.blocks[k].nblks);
    hide IsNextMatch;
    assert forall o :: Accounted(p, o) ==> Accounted(t, o);
    hide Accounted;
  }

  lemma PushNextIs(s: State, f: Filter)
    requires HeapWf(s.heap) && INITIAL_MARK_STACK_SIZE <= s.capacity && NextMatch(s, s.scanPtr, f) in s.heap.blocks
    ensures BlockPushed(s, f, NextMatch(s, s.scanPtr, f), PushNext(s, f))
  {
    var k := NextMatch(s, s.scanPtr, f);
    NextMatchIs(s, s.scanPtr, f);
    PushMarkedPushed(s, k);
    hide HeapWf, PushMarked, IsNextMatch, BlockPushed, NextMatch;
    ScanMoves(s, f, k, PushMarked(s, s.heap.blocks[k]));
  }

  /** What the scan owed in block k is on the mark stack now, and what lies behind is owed still. */
  lemma BlockPushedWord(s: State, f: Filter, k: nat, t: State, o: Obj, i: nat)
    requires HeapWf(s.heap) && WordsOk(s) && FilterFits(s.phase, f) && BlockPushed(s, f, k, t) && o in s.marked && i < |FieldsOf(s.heap, o)|
    ensures WordOk(t, Object(o), i)
  {
    var src := Object(o);
    assert WordsOf(t, src) == WordsOf(s, src) == FieldsOf(s.heap, o) && FieldsOf(t.heap, o) == FieldsOf(s.heap, o);
    assert WordOk(s, src, i);
    hide WordsOk;
    if t.phase != Invalid && FieldsOf(s.heap, o)[i] in s.heap.home && FieldsOf(s.heap, o)[i] !in s.marked {
      if Covered(s.stack, src, i) {
        CoveredMonotone(s.stack, t.stack, src, i);
      } else if Owed(s, o, i) {
        OwedBlocksMatch(s, f, o, i);
        if s.heap.home[o] == k { assert Accounted(t, o); } else { BehindBlock(s, f, k, o); }
      }
    }
  }

  lemma BehindBlock(s: State, f: Filter, k: nat, o: Obj)
    requires HeapWf(s.heap) && IsNextMatch(s, s.scanPtr, f, k) && o in s.heap.home && s.heap.home[o] in s.heap.blocks
    requires s.scanPtr <= s.heap.home[o] && s.heap.home[o] != k && Matches(s, s.heap.home[o], f)
    ensures k + s.heap.blocks[k].nblks <= s.heap.home[o]
  {
  }

  lemma PushNextFound(s: State, f: Filter)
    requires Sane(s) && WordsOk(s) && FilterFits(s.phase, f)
    requires NextMatch(s, s.scanPtr, f) in s.heap.blocks
    ensures WordsOk(PushNext(s, f))
  {
    var k, t := NextMatch(s, s.scanPtr, f), PushNext(s, f);
    PushNextIs(s, f);
    assert HeapWf(s.heap) && t.heap == s.heap && t.marked == s.marked && t.phase != RootsPushed;
    hide PushNext, Sane, BlockPushed, WordsOk, HeapWf, IsNextMatch;
    forall src, i: nat | Live(t, src) && i < |WordsOf(t, src)| ensures WordOk(t, src, i) {
      BlockPushedWord(s, f, k, t, src.o, i);
    }
  }

  lemma NextMatchIs(s: State, from: nat, f: Filter)
    requires NextMatch(s, from, f) in s.heap.blocks && HeapWf(s.heap)
    ensures IsNextMatch(s, from, f, NextMatch(s, from, f))
  {
  }

  // ---------- roots ----------

  lemma PrefixOf(a: seq<Entry>, e: Entry, b: seq<Entry>)
    requires a + [e] <= b
    ensures a <= b && |a| < |b| && b[|a|] == e
  {
    assert (a + [e])[|a|] == e;
  }

  lemma PushStaticsPushed(s: State, k: nat)
    requires |s.stack| <= s.capacity
    ensures var t := PushStatics(s, k);
      && t == s.(stack := t.stack, aborted := t.aborted) && s.stack <= t.stack && |t.stack| <= t.capacity
      && (!t.aborted ==> forall j, i: nat :: k <= j < |s.statics| && i < |s.statics[j]| ==> Covered(t.stack, StaticArea(j), i))
    decreases |s.statics| - k
  {
    if k < |s.statics| && !s.aborted && |s.stack| < s.capacity {
      var e := Entry(StaticArea(k), 0, |s.statics[k]|);
      var r := s.(stack := s.stack + [e]);
      PushStaticsPushed(r, k + 1);
      var t := PushStatics(r, k + 1);
      assert PushStatics(s, k) == t;
      hide PushStatics;
      PrefixOf(s.stack, e, t.stack);
      forall i: nat | i < |s.statics[k]| ensures Covered(t.stack, StaticArea(k), i) {}
    } else {
      assert PushStatics(s, k) == s || PushStatics(s, k) == s.(aborted := true);
      hide PushStatics;
    }
  }

  /** Pushing does not look at the phase. */
  lemma PushEntryPhase(s: State, ph: Phase, e: Entry)
    requires s.phase != Invalid
    ensures var t := PushEntry(s, e);
      PushEntry(s.(phase := ph), e) == if t.phase == Invalid then t else t.(phase := ph)
  {
    if |s.stack| < s.capacity {
      assert PushEntry(s, e).phase == s.phase;
    } else {
      assert PushEntry(s, e).phase == Invalid;
    }
  }

  lemma PushContentsPhase(s: State, ph: Phase, w: Word)
    requires s.phase != Invalid
    ensures var t := PushContents(s, w);
      PushContents(s.(phase := ph), w) == if t.phase == Invalid then t else t.(phase := ph)
  {
    if w in s.heap.home && w !in s.marked {
      var r := s.(marked := s.marked + {w});
      assert PushContents(s, w) == PushObj(r, w);
      assert PushContents(s.(phase := ph), w) == PushObj(r.(phase := ph), w);
      hide PushContents;
      if Scanned(s.heap, w) {
        hide PushEntry;
        PushEntryPhase(r, ph, Entry(Object(w), 0, |s.heap.contents[w]|));
      }
    }
  }

  lemma ScanWordsPhase(s: State, ph: Phase, ws: seq<Word>, from: nat, hi: nat)
    requires s.phase != Invalid && INITIAL_MARK_STACK_SIZE <= s.capacity
    ensures var t := ScanWords(s, ws, from, hi);
      ScanWords(s.(phase := ph), ws, from, hi) == if t.phase == Invalid then t else t.(phase := ph)
    decreases hi - from
  {
    if from < hi && from < |ws| {
      PushContentsPushed(s, ws[from]);
      PushContentsPhase(s, ph, ws[from]);
      var t := PushContents(s, ws[from]);
      if t.phase == Invalid {
        ScanWordsPushed(t, ws, from + 1, hi);
      } else {
        ScanWordsPhase(t, ph, ws, from + 1, hi);
      }
    }
  }

  lemma ExceptNothing(s: State, hi: nat)
    requires WordsOkExcept(s, StaticArea(|s.statics|), 0, hi)
    ensures WordsOk(s)
  {
  }

  lemma WordsOkSame(s: State, t: State)
    requires WordsOk(s) && t == s.(objectsMarked := true)
    ensures WordsOk(t)
  {
    forall src, i: nat | Live(t, src) && i < |WordsOf(t, src)| ensures WordOk(t, src, i) {
      assert WordOk(s, src, i);
    }
  }

  lemma PushRootsOk(s: State)
    requires Settled(s) && |s.stack| <= s.capacity && INITIAL_MARK_STACK_SIZE <= s.capacity
    requires s.phase != Invalid && !s.aborted
    ensures var t := AfterRoots(PushRoots(s));
      !t.aborted ==> WordsOk(t) && RootsOk(t) && Advanced(s.(phase := t.phase), t) && t.objectsMarked
                     && (t.phase == Invalid || t.phase == RootsPushed)
  {
    PushStaticsPushed(s, 0);
    var u := PushStatics(s, 0);
    if !u.aborted {
      var v := u.(phase := RootsPushed);
      assert WordsOk(v) by {
        forall src, i: nat | Live(v, src) && i < |WordsOf(v, src)|
          ensures WordOk(v, src, i)
        {
          match src
          case Object(o) =>
            if Covered(s.stack, src, i) { CoveredMonotone(s.stack, v.stack, src, i); }
          case StaticArea(k) =>
        }
      }
      ScanWordsPhase(u, RootsPushed, u.stackRoots, 0, |u.stackRoots|);
      ScanWordsPushed(v, v.stackRoots, 0, |v.stackRoots|);
      ScanWordsOk(v, v.stackRoots, 0, |v.stackRoots|, StaticArea(|v.statics|), 0);
      var y := ScanWords(v, v.stackRoots, 0, |v.stackRoots|);
      ExceptNothing(y, |v.stackRoots|);
      WordsOkSame(y, AfterRoots(PushRoots(s)));
    }
  }

  // ---------- GC_mark_some ----------

  lemma MarkFromStackInv(s: State)
    requires Inv(s) && Tracked(s) && s.phase != Idle
    requires s.phase != Invalid || s.objectsMarked
    ensures Inv(MarkFromStack(s)) && Advanced(s, MarkFromStack(s))
  {
    var r := s.(objectsMarked := true);
    WordsOkSame(s, r);
    MarkFromOk(r, HBLK_WORDS);
  }

  /** One scanning call of GC_mark_some: either a block is pushed, or the scan ends and the roots are. */
  lemma PushNextInv(s: State, f: Filter)
    requires Inv(s) && Tracked(s) && FilterFits(s.phase, f)
    requires s.objectsMarked || s.phase != Invalid
    ensures var t := PushNext(s, f);
      && Inv(t) && Advanced(s, t.(scanPtr := s.scanPtr))
      && (t.scanPtr == 0 ==> t == s.(scanPtr := 0))
      && (t.scanPtr == 0 && s.phase != Invalid ==> Settled(s))
  {
    var k := NextMatch(s, s.scanPtr, f);
    var t := PushNext(s, f);
    if k in s.heap.blocks {
      PushNextFound(s, f);
      PushMarkedPushed(s, k);
    } else {
      if s.phase != Invalid { PushNextEnd(s, f); }
      ScanRestart(s);
    }
  }

  /** Setting scan_ptr back only adds to what the scan owes. */
  lemma ScanRestart(s: State)
    requires WordsOk(s)
    ensures WordsOk(s.(scanPtr := 0))
  {
    var t := s.(scanPtr := 0);
    forall src, i: nat | Live(t, src) && i < |WordsOf(t, src)| ensures WordOk(t, src, i) {
      assert WordOk(s, src, i);
    }
  }

  /** The end of a scan, when GC_mark_some pushes the roots. */
  lemma EndOfScanInv(s: State)
    requires Inv(s) && Tracked(s) && Settled(s) && !s.aborted
    requires s.phase == PushRescuers || s.phase == PushUncollectable || s.phase == PartiallyInvalid
    ensures var t := AfterRoots(PushRoots(s.(scanPtr := 0)));
      !t.aborted ==> Inv(t) && Advanced(s.(phase := t.phase, scanPtr := 0), t)
                     && (t.phase == Invalid || t.phase == RootsPushed)
  {
    PushRootsOk(s.(scanPtr := 0));
  }

  lemma FinishInv(s: State, ok: bool)
    requires Inv(s) && Tracked(s) && s.phase == RootsPushed && s.stack == []
    ensures Inv(GrowIfTooSmall(s.(phase := Idle), ok))
  {
    var t := GrowIfTooSmall(s.(phase := Idle), ok);
    forall src, i: nat | Live(t, src) && i < |WordsOf(t, src)| ensures WordOk(t, src, i) {
      assert WordOk(s, src, i);
    }
  }

  /** The words of marked objects after parallel marking. */
  lemma AfterParallelWord(s: State, a: Answer, o: Obj, i: nat)
    requires WordsOk(s) && s.phase == RootsPushed && ParallelMarks(s, a)
    requires o in a.marks && i < |FieldsOf(s.heap, o)| && FieldsOf(s.heap, o)[i] in s.heap.home
    ensures FieldsOf(s.heap, o)[i] in a.marks || a.overflow || PageOf(s.heap, o, i) in s.dirty || (o, i) in s.stray
  {
    var w := FieldsOf(s.heap, o)[i];
    assert WordsOf(s, Object(o)) == FieldsOf(s.heap, o);
    if o in s.marked {
      assert WordOk(s, Object(o), i);
    } else {
      assert w in FieldsOf(s.heap, o);
    }
  }

  lemma AfterParallelWordOk(s: State, t: State, a: Answer, o: Obj, i: nat)
    requires WordsOk(s) && s.phase == RootsPushed && ParallelMarks(s, a)
    requires t.heap == s.heap && t.marked == a.marks && t.dirty == s.dirty && t.stray == s.stray && t.phase == if a.overflow then Invalid else Idle
    requires o in a.marks && i < |FieldsOf(s.heap, o)|
    ensures WordOk(t, Object(o), i)
  {
    assert WordsOf(t, Object(o)) == FieldsOf(s.heap, o);
    if FieldsOf(s.heap, o)[i] in s.heap.home { AfterParallelWord(s, a, o, i); }
    hide ParallelMarks, WordsOk;
  }

  lemma AfterParallelWords(s: State, t: State, a: Answer)
    requires WordsOk(s) && s.phase == RootsPushed && ParallelMarks(s, a)
    requires t.heap == s.heap && t.marked == a.marks && t.dirty == s.dirty && t.stray == s.stray && t.phase == if a.overflow then Invalid else Idle
    ensures WordsOk(t)
  {
    hide ParallelMarks;
    forall src, i: nat | Live(t, src) && i < |WordsOf(t, src)| ensures WordOk(t, src, i) {
      AfterParallelWordOk(s, t, a, src.o, i);
    }
  }

  lemma AfterParallelIs(s: State, a: Answer)
    requires s.phase == RootsPushed
    ensures var t := AfterParallelMark(s, a).s;
      && t == s.(marked := a.marks, stack := [], phase := if a.overflow then Invalid else Idle, tooSmall := t.tooSmall,
                 capacity := t.capacity)
      && s.capacity <= t.capacity
  {
  }

  /** Parallel marking either closes the marks, or loses entries and makes the state invalid. */
  lemma AfterParallelInv(s: State, a: Answer)
    requires Inv(s) && Tracked(s) && s.phase == RootsPushed && ParallelMarks(s, a)
    ensures StepOk(s, AfterParallelMark(s, a).s)
  {
    var t := AfterParallelMark(s, a).s;
    AfterParallelIs(s, a);
    hide AfterParallelMark;
    AfterParallelWords(s, t, a);
    assert s.marked <= t.marked <= s.heap.home.Keys && s.objectsMarked;
    hide WordsOk, HeapWf, ParallelMarks, INITIAL_MARK_STACK_SIZE;
    assert Always(t);
  }

  /** Without any marks but kept ones, a scan of the uncollectable blocks restores invariant I. */
  lemma StartUncollectableInv(s: State)
    requires Inv(s) && Tracked(s) && s.phase == Invalid && !s.objectsMarked
    ensures Inv(s.(phase := PushUncollectable))
  {
    var t := s.(phase := PushUncollectable);
    forall src, i: nat | Live(t, src) && i < |WordsOf(t, src)| ensures WordOk(t, src, i) {
      assert KeepsMarks(s, src.o);
    }
  }

  lemma StartRescanInv(s: State, ok: bool)
    requires Inv(s) && Tracked(s) && s.phase == Invalid && s.scanPtr == 0 && s.stack == [] && s.objectsMarked
    ensures var r := StartRescan(s, ok);
      Inv(r) && r == s.(tooSmall := r.tooSmall, capacity := r.capacity, phase := PartiallyInvalid)
  {
    var r := StartRescan(s, ok);
    assert r == s.(tooSmall := r.tooSmall, capacity := r.capacity, phase := PartiallyInvalid) && s.capacity <= r.capacity;
    hide StartRescan;
    RescanOwesAll(r);
    hide WordsOk, HeapWf, INITIAL_MARK_STACK_SIZE;
    assert Always(r);
  }

  /** A scan of the whole heap that has yet to begin owes every word. */
  lemma RescanOwesAll(s: State)
    requires s.phase == PartiallyInvalid && s.scanPtr == 0
    ensures WordsOk(s)
  {
    forall src, i: nat | Live(s, src) && i < |WordsOf(s, src)| ensures WordOk(s, src, i) {
    }
  }

  /** The parts of the state that belong to the mutator and to the driver. */
  ghost predicate SameWorld(s: State, t: State) {
    && t == s.(marked := t.marked, stack := t.stack, capacity := t.capacity, phase := t.phase, scanPtr := t.scanPtr,
               tooSmall := t.tooSmall, objectsMarked := t.objectsMarked, aborted := t.aborted)
    && s.marked <= t.marked
  }

  ghost predicate StepOk(s: State, t: State) {
    SameWorld(s, t.(aborted := s.aborted)) && (!t.aborted ==> Inv(t))
  }

  lemma MarkStackStepInv(s: State)
    requires Inv(s) && Tracked(s) && s.phase != Idle
    requires s.phase != Invalid || s.objectsMarked
    ensures StepOk(s, MarkFromStack(s)) && StepOk(s, MarkFromStack(s.(tooSmall := true)))
  {
    MarkFromStackInv(s);
    TooSmallInv(s);
    MarkFromStackInv(s.(tooSmall := true));
  }

  /** One step of the scan of the whole heap. */
  lemma HeapScanInv(s: State)
    requires Inv(s) && Tracked(s) && !s.aborted && (s.phase == Invalid || s.phase == PartiallyInvalid) && s.objectsMarked
    ensures StepOk(s, HeapScan(s))
  {
    ScanStepInv(s, AnyBlock);
    PushNextInv(s, AnyBlock);
    hide Inv, PushNext, AfterRoots, PushRoots, StepOk, Settled;
  }

  lemma StepOkFrom(s: State, r: State, t: State)
    requires StepOk(r, t) && r == s.(tooSmall := r.tooSmall, capacity := r.capacity, phase := r.phase)
    ensures StepOk(s, t)
  {
    hide Inv;
  }

  lemma MarkSomeInvalidInv(s: State, ok: bool)
    requires Inv(s) && Tracked(s) && !s.aborted && (s.phase == Invalid || s.phase == PartiallyInvalid)
    requires s.objectsMarked && s.stack == []
    ensures StepOk(s, HeapScan(StartRescan(s, ok)))
  {
    if s.scanPtr == 0 && s.phase == Invalid {
      StartRescanInv(s, ok);
      hide Inv, HeapScan, StepOk;
      HeapScanInv(StartRescan(s, ok));
      StepOkFrom(s, StartRescan(s, ok), HeapScan(StartRescan(s, ok)));
    } else {
      hide HeapScan, StepOk;
      HeapScanInv(s);
    }
  }

  /** GC_mark_some keeps the invariant in every phase, with and without GC_parallel. */
  lemma MarkSomeInv(s: State, a: Answer)
    requires Inv(s) && Tracked(s) && !s.aborted && Possible(s, a)
    ensures StepOk(s, MarkSome(s, a).s)
  {
    match s.phase
    case Idle =>
    case PushRescuers =>
      if s.capacity - INITIAL_MARK_STACK_SIZE / 2 <= |s.stack| - 1 { MarkStackStepInv(s); } else { ScanStepInv(s, DirtyBlock); }
    case PushUncollectable =>
      if s.capacity / 4 <= |s.stack| - 1 { MarkStackStepInv(s); } else { ScanStepInv(s, UncollectableBlock); }
    case RootsPushed =>
      if s.parallel { AfterParallelInv(s, a); }
      else if 0 < |s.stack| { MarkStackStepInv(s); } else { FinishInv(s, a.ok); }
    case _ =>
      if !s.objectsMarked { StartUncollectableInv(s); }
      else if 0 < |s.stack| { MarkStackStepInv(s); }
      else { MarkSomeInvalidInv(s, a.ok); }
  }

  lemma TooSmallInv(s: State)
    requires Inv(s)
    ensures Inv(s.(tooSmall := true))
  {
    if Tracked(s) {
      var t := s.(tooSmall := true);
      forall src, i: nat | Live(t, src) && i < |WordsOf(t, src)| ensures WordOk(t, src, i) {
        assert WordOk(s, src, i);
      }
    }
  }

  lemma ScanStepInv(s: State, f: Filter)
    requires Inv(s) && Tracked(s) && FilterFits(s.phase, f) && !s.aborted
    requires s.objectsMarked || s.phase != Invalid
    ensures var t := PushNext(s, f);
      var u := if t.scanPtr == 0 && s.phase != Invalid then AfterRoots(PushRoots(t)) else t;
      StepOk(s, u)
  {
    PushNextInv(s, f);
    var t := PushNext(s, f);
    if t.scanPtr == 0 && s.phase != Invalid {
      EndOfScanInv(s);
      PushRootsSameWorld(t);
    }
  }

  lemma PushRootsSameWorld(s: State)
    requires |s.stack| <= s.capacity && INITIAL_MARK_STACK_SIZE <= s.capacity
    ensures SameWorld(s, AfterRoots(PushRoots(s)).(aborted := s.aborted))
  {
    PushStaticsPushed(s, 0);
    var t := PushStatics(s, 0);
    ScanWordsPushed(t, t.stackRoots, 0, |t.stackRoots|);
  }

  // ---------- what a finished mark phase guarantees ----------

  /** The marks contain the roots and the children of their members. */
  ghost predicate MarksClosed(s: State, marks: set<Obj>) {
    && (forall w :: IsRootWord(s, w) && w in s.heap.home ==> w in marks)
    && (forall o, w :: o in marks && w in FieldsOf(s.heap, o) && w in s.heap.home ==> w in marks)
  }

  /** The same, but for children to which only stray words refer. */
  ghost predicate CleanlyClosed(s: State, marks: set<Obj>) {
    && (forall w :: IsRootWord(s, w) && w in s.heap.home ==> w in marks)
    && (forall o, w :: o in marks && Refers(s, o, w) && w in s.heap.home ==> w in marks)
  }

  lemma NoStrayClosed(s: State, marks: set<Obj>)
    requires CleanlyClosed(s, marks) && s.stray == {}
    ensures MarksClosed(s, marks)
  {
    forall o, w | o in marks && w in FieldsOf(s.heap, o) && w in s.heap.home ensures w in marks {
      var i :| 0 <= i < |FieldsOf(s.heap, o)| && FieldsOf(s.heap, o)[i] == w;
      assert Refers(s, o, w);
    }
  }

  lemma RootsClosed(s: State, marks: set<Obj>, w: Word)
    requires Inv(s) && s.stopped && s.phase == RootsPushed && s.marked <= marks && IsRootWord(s, w) && w in s.heap.home
    requires StackMarked(s, marks)
    ensures w in marks
  {
    if w !in s.stackRoots {
      var k :| 0 <= k < |s.statics| && w in s.statics[k];
      var i :| 0 <= i < |s.statics[k]| && s.statics[k][i] == w;
      assert w == WordsOf(s, StaticArea(k))[i] && WordOk(s, StaticArea(k), i);
    }
  }

  /** With the world stopped, invariant I and an empty stack mean that the marks are closed. */
  lemma ClosedWhenFinished(s: State)
    requires Inv(s) && s.stopped && s.phase == RootsPushed && s.stack == []
    ensures CleanlyClosed(s, s.marked)
  {
    forall w | IsRootWord(s, w) && w in s.heap.home ensures w in s.marked { RootsClosed(s, s.marked, w); }
    forall o, w | o in s.marked && Refers(s, o, w) && w in s.heap.home ensures w in s.marked {
      var i: nat :| i < |FieldsOf(s.heap, o)| && FieldsOf(s.heap, o)[i] == w && (o, i) !in s.stray;
      assert w == WordsOf(s, Object(o))[i] && WordOk(s, Object(o), i);
    }
  }

  /** The same after parallel marking without an overflow. */
  lemma ClosedAfterParallel(s: State, a: Answer)
    requires Inv(s) && s.stopped && s.phase == RootsPushed && ParallelMarks(s, a) && !a.overflow
    ensures CleanlyClosed(s, a.marks)
  {
    forall w | IsRootWord(s, w) && w in s.heap.home ensures w in a.marks { RootsClosed(s, a.marks, w); }
    forall o, w | o in a.marks && Refers(s, o, w) && w in s.heap.home ensures w in a.marks {
      var i: nat :| i < |FieldsOf(s.heap, o)| && FieldsOf(s.heap, o)[i] == w && (o, i) !in s.stray;
      AfterParallelWord(s, a, o, i);
    }
  }

  lemma {:induction false} PathMarked(s: State, marks: set<Obj>, p: seq<Obj>, n: nat)
    requires CleanPath(s, p) && n < |p| && CleanlyClosed(s, marks)
    ensures p[n] in marks
  {
    if 0 < n {
      PathMarked(s, marks, p, n - 1);
      assert Refers(s, p[n - 1], p[n - 1 + 1]);
    }
  }

  /** GC_mark_some leads from s to t and reports the end of a mark phase, with the world stopped. */
  ghost predicate LastStep(s: State, a: Answer, t: State) {
    Inv(s) && s.stopped && !s.aborted && Possible(s, a) && MarkSome(s, a) == Outcome(t, true)
  }

  /** With the world stopped, the marks are closed at the end of a mark phase. */
  lemma ClosedAtEnd(s: State, a: Answer)
    requires Inv(s) && s.stopped && !s.aborted && Possible(s, a) && MarkSome(s, a).done
    ensures CleanlyClosed(s, MarkSome(s, a).s.marked) && s.marked <= MarkSome(s, a).s.marked
  {
    if s.parallel { ClosedAfterParallel(s, a); } else { ClosedWhenFinished(s); }
  }

  /**
   When GC_mark_some reports the end of a mark phase with the world stopped, all objects are marked that are
   reachable without stray words.
   */
  lemma MarkSomeComplete(s: State, a: Answer)
    requires Inv(s) && s.stopped && !s.aborted && Possible(s, a) && MarkSome(s, a).done
    ensures OnlyStrayMissed(MarkSome(s, a).s) && MarkSome(s, a).s.stray == s.stray
    ensures s.stray == {} ==> AllReachableMarked(MarkSome(s, a).s)
  {
    var t := MarkSome(s, a).s;
    ClosedAtEnd(s, a);
    assert t.heap == s.heap && t.statics == s.statics && t.stackRoots == s.stackRoots && t.stray == s.stray;
    hide CleanlyClosed, MarkSome, Inv, Possible, AllReachableMarked;
    forall p | CleanPath(t, p) ensures p[|p| - 1] in t.marked {
      SamePath(s, t, p);
      PathMarked(s, t.marked, p, |p| - 1);
    }
    if s.stray == {} { NoStrayNoneMissed(t); }
  }

  lemma SamePath(s: State, t: State, p: seq<Obj>)
    requires CleanPath(t, p) && t.heap == s.heap && t.statics == s.statics && t.stackRoots == s.stackRoots && t.stray == s.stray
    ensures CleanPath(s, p)
  {
    assert RootPath(s, p);
    forall i | 0 <= i < |p| - 1 ensures Refers(s, p[i], p[i + 1]) { assert Refers(t, p[i], p[i + 1]); }
  }
}
