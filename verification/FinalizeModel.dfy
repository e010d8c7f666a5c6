/**
Which objects GC_finalize marks on behalf of finalizable objects (libs/gc/finalize.c:248-295, 560-580
and GC_MARK_FO in libs/gc/include/private/gc_pmark.h:421-440), on the marker of MarkModel.
 */
module FinalizeModel {
  import opened MarkModel
  import opened MarkSafety
  import opened MarkExact
  import opened MarkTermination
  import Arithmetic

  /** The mark procedure a finalizer was registered with. */
  datatype Proc = NormalProc | IgnoreSelfProc | NullProc | UnreachableProc

  datatype Registered = Registered(o: Obj, proc: Proc)

  /** What o refers to. */
  function Children(h: Heap, o: Obj): set<Obj> { set w | w in FieldsOf(h, o) && w in h.home }

  /** The objects the mark procedure marks from, one pointer away from o. */
  function Starts(h: Heap, r: Registered): set<Obj> {
    match r.proc
    case NormalProc => Children(h, r.o)
    case UnreachableProc => Children(h, r.o)
    case IgnoreSelfProc => Children(h, r.o) - {r.o}
    case NullProc => {}
  }

  /** The words of o, except those that refer to o itself. */
  function Others(ws: seq<Word>, o: Obj): seq<Word> {
    if ws == [] then [] else (if ws[0] == o then [] else [ws[0]]) + Others(ws[1..], o)
  }

  lemma {:induction false} OthersHas(ws: seq<Word>, o: Obj)
    ensures forall w :: w in Others(ws, o) <==> w in ws && w != o
  {
    if ws != [] {
      OthersHas(ws[1..], o);
      assert forall w :: w in ws <==> w == ws[0] || w in ws[1..];
    }
  }

  /** The mark procedures. */
  function RunProc(s: State, r: Registered): State {
    match r.proc
    case NormalProc => PushObj(s, r.o)
    case UnreachableProc => PushObj(s, r.o)
    case IgnoreSelfProc => var ws := Others(FieldsOf(s.heap, r.o), r.o); ScanWords(s, ws, 0, |ws|)
    case NullProc => s
  }

  // ---------- closed sets ----------

  /** c contains what its members refer to. */
  ghost predicate ClosedUnder(h: Heap, c: set<Obj>) {
    forall o, w :: o in c && w in FieldsOf(h, o) && w in h.home ==> w in c
  }

  /** m is the least closed set around base. */
  ghost predicate IsLeast(h: Heap, base: set<Obj>, m: set<Obj>) {
    && ClosedUnder(h, m) && base <= m
    && forall c :: ClosedUnder(h, c) && base <= c ==> m <= c
  }

  lemma LeastUnique(h: Heap, base: set<Obj>, m: set<Obj>, n: set<Obj>)
    requires IsLeast(h, base, m) && IsLeast(h, base, n)
    ensures m == n
  {
  }

  /** Enlarging the base of a least set by objects that are reached anyway changes nothing. */
  lemma LeastWiden(h: Heap, base: set<Obj>, m: set<Obj>, more: set<Obj>, n: set<Obj>)
    requires IsLeast(h, base, m) && IsLeast(h, m + more, n)
    ensures IsLeast(h, base + more, n)
  {
    forall c | ClosedUnder(h, c) && base + more <= c ensures n <= c { assert m <= c; }
  }

  // ---------- the state between two mark procedures ----------

  /**
  No marking is under way, and a mark phase with the world stopped has just been completed.  GC_finalize runs
  after the world was started again, but with the allocation lock held, without which the program cannot
  reveal a hidden pointer; `stopped` stands for that.
   */
  ghost predicate Quiet(s: State) {
    && Inv(s) && s.stopped && !s.aborted && s.phase == Idle && s.objectsMarked
    && (forall w :: IsRootWord(s, w) && w in s.heap.home ==> w in s.marked)
    && StraysMarked(s)
  }

  /** Stray words refer only to objects that are marked all the same. */
  ghost predicate StraysMarked(s: State) {
    forall o, i: nat :: (o, i) in s.stray && i < |FieldsOf(s.heap, o)| && FieldsOf(s.heap, o)[i] in s.heap.home ==>
      FieldsOf(s.heap, o)[i] in s.marked
  }

  lemma QuietClosed(s: State)
    requires Quiet(s)
    ensures ClosedUnder(s.heap, s.marked)
  {
    forall o, w | o in s.marked && w in FieldsOf(s.heap, o) && w in s.heap.home ensures w in s.marked {
      var i: nat :| i < |FieldsOf(s.heap, o)| && FieldsOf(s.heap, o)[i] == w;
      assert w == WordsOf(s, Object(o))[i] && WordOk(s, Object(o), i);
    }
  }

  // ---------- draining the mark stack ----------

  /** Word i of src has been marked from, or is still on the stack, or entries were dropped. */
  ghost predicate Handled(s: State, src: Source, i: nat) {
    i < |WordsOf(s, src)| && WordsOf(s, src)[i] in s.heap.home ==>
      WordsOf(s, src)[i] in s.marked || Covered(s.stack, src, i) || s.phase == Invalid
  }

  lemma MarkStepHandles(s: State, src: Source, i: nat)
    requires 0 < |s.stack| <= s.capacity && INITIAL_MARK_STACK_SIZE <= s.capacity && Handled(s, src, i)
    ensures Handled(MarkStep(s), src, i)
  {
    var e := s.stack[|s.stack| - 1];
    var r := s.(stack := WithoutPiece(s.stack), objectsMarked := true);
    var ws := WordsOf(s, e.src);
    ScanWordsPushed(r, ws, e.lo, PieceEnd(e));
    var t := MarkStep(s);
    if i < |WordsOf(s, src)| && WordsOf(s, src)[i] in s.heap.home && Covered(s.stack, src, i) && t.phase != Invalid {
      var k :| 0 <= k < |s.stack| && s.stack[k].src == src && s.stack[k].lo <= i < s.stack[k].hi;
      if k < |s.stack| - 1 {
        assert r.stack[k] == s.stack[k];
        CoveredMonotone(r.stack, t.stack, src, i);
      } else if PieceEnd(e) <= i {
        assert r.stack[|r.stack| - 1] == e.(lo := PieceEnd(e));
        CoveredMonotone(r.stack, t.stack, src, i);
      }
    }
  }

  lemma {:induction false} MarkFromHandles(s: State, credit: int, src: Source, i: nat)
    requires |s.stack| <= s.capacity && INITIAL_MARK_STACK_SIZE <= s.capacity && WordsOk(s) && Handled(s, src, i)
    ensures Handled(MarkFrom(s, credit), src, i)
    decreases if credit < 0 then 0 else credit + 1, |s.stack|
  {
    if 0 <= credit && 0 < |s.stack| {
      MarkStepHandles(s, src, i);
      MarkStepOk(s);
      MarkFromHandles(MarkStep(s), credit - Cost(s.stack[|s.stack| - 1]), src, i);
    }
  }

  ghost predicate EntriesIn(stack: seq<Entry>, d: set<Obj>) {
    forall k :: 0 <= k < |stack| ==> stack[k].src.Object? && stack[k].src.o in d
  }

  /** Marks lie in c, and entries of the stack refer to objects of d, whose children lie in c. */
  ghost predicate Bounded(s: State, c: set<Obj>, d: set<Obj>) {
    && s.marked <= c && c <= d
    && EntriesIn(s.stack, d)
    && forall o, w :: o in d && w in FieldsOf(s.heap, o) && w in s.heap.home ==> w in c
  }

  lemma PushEntryBounded(s: State, e: Entry, c: set<Obj>, d: set<Obj>)
    requires Bounded(s, c, d) && e.src.Object? && e.src.o in d
    ensures Bounded(PushEntry(s, e), c, d)
  {
    var keep := if |s.stack| < s.capacity then |s.stack| else if DISCARDS <= |s.stack| then |s.stack| - DISCARDS else 0;
    assert EntriesIn(s.stack[..keep] + [e], d);
    assert |s.stack| < s.capacity ==> s.stack[..keep] == s.stack;
  }

  lemma PushObjBounded(s: State, o: Obj, c: set<Obj>, d: set<Obj>)
    requires Bounded(s, c, d) && o in d
    ensures Bounded(PushObj(s, o), c, d)
  {
    hide Bounded, PushEntry;
    if Scanned(s.heap, o) { PushEntryBounded(s, Entry(Object(o), 0, |s.heap.contents[o]|), c, d); }
  }

  lemma PushContentsBounded(s: State, w: Word, c: set<Obj>, d: set<Obj>)
    requires Bounded(s, c, d) && (w in s.heap.home ==> w in c)
    ensures Bounded(PushContents(s, w), c, d)
  {
    if w in s.heap.home && w !in s.marked { PushObjBounded(s.(marked := s.marked + {w}), w, c, d); }
  }

  lemma {:induction false} ScanWordsBounded(s: State, ws: seq<Word>, from: nat, hi: nat, c: set<Obj>, d: set<Obj>)
    requires Bounded(s, c, d) && INITIAL_MARK_STACK_SIZE <= s.capacity
    requires forall w :: w in ws && w in s.heap.home ==> w in c
    ensures Bounded(ScanWords(s, ws, from, hi), c, d)
    decreases hi - from
  {
    if from < hi && from < |ws| {
      PushContentsBounded(s, ws[from], c, d);
      PushContentsPushed(s, ws[from]);
      ScanWordsBounded(PushContents(s, ws[from]), ws, from + 1, hi, c, d);
    }
  }

  lemma MarkStepBounded(s: State, c: set<Obj>, d: set<Obj>)
    requires Bounded(s, c, d) && 0 < |s.stack| && INITIAL_MARK_STACK_SIZE <= s.capacity
    ensures Bounded(MarkStep(s), c, d)
  {
    var e := s.stack[|s.stack| - 1];
    var r := s.(stack := WithoutPiece(s.stack), objectsMarked := true);
    forall k | 0 <= k < |r.stack| ensures r.stack[k].src.Object? && r.stack[k].src.o in d {
      assert r.stack[k].src == s.stack[k].src;
    }
    ScanWordsBounded(r, WordsOf(s, e.src), e.lo, PieceEnd(e), c, d);
  }

  lemma {:induction false} MarkFromBounded(s: State, credit: int, c: set<Obj>, d: set<Obj>)
    requires INITIAL_MARK_STACK_SIZE <= s.capacity && |s.stack| <= s.capacity && WordsOk(s) && Bounded(s, c, d)
    ensures Bounded(MarkFrom(s, credit), c, d)
    decreases if credit < 0 then 0 else credit + 1, |s.stack|
  {
    if 0 <= credit && 0 < |s.stack| {
      MarkStepBounded(s, c, d);
      MarkStepOk(s);
      MarkFromBounded(MarkStep(s), credit - Cost(s.stack[|s.stack| - 1]), c, d);
    }
  }

  // ---------- one GC_MARK_FO ----------

  /** The mark procedure of r puts r.o itself on the mark stack. */
  predicate PushesItself(r: Registered) { r.proc.NormalProc? || r.proc.UnreachableProc? }

  ghost predicate StartsHandled(s: State, r: Registered) {
    if PushesItself(r) then forall i: nat :: Handled(s, Object(r.o), i)
    else Starts(s.heap, r) <= s.marked || s.phase == Invalid
  }

  /** Whatever is closed around the marks of s0 and the starts of r bounds the marks of s. */
  ghost predicate BoundedByStarts(s0: State, r: Registered, s: State) {
    forall c :: ClosedUnder(s.heap, c) && s0.marked + Starts(s.heap, r) <= c ==>
      Bounded(s, c, if PushesItself(r) then c + {r.o} else c)
  }

  /** What marking leaves alone. */
  ghost predicate Steady(s0: State, s: State) {
    && SameWorld(s0, s) && s.capacity == s0.capacity && s.aborted == s0.aborted && s.objectsMarked && s.scanPtr == s0.scanPtr
    && |s.stack| <= s.capacity && s.marked <= s.heap.home.Keys && (s.phase == Idle || s.phase == Invalid)
  }

  /** The state in the first loop of GC_MARK_FO for r, entered from s0. */
  ghost predicate Draining(s0: State, r: Registered, s: State) {
    Steady(s0, s) && WordsOk(s) && StartsHandled(s, r) && BoundedByStarts(s0, r, s)
  }

  lemma StartsClosed(s: State, r: Registered, c: set<Obj>)
    requires ClosedUnder(s.heap, c) && s.marked + Starts(s.heap, r) <= c && s.stack == []
    ensures Bounded(s, c, if PushesItself(r) then c + {r.o} else c)
  {
    assert forall w :: w in FieldsOf(s.heap, r.o) && w in s.heap.home ==> w in Children(s.heap, r.o);
  }

  lemma ProcHandles(s: State, r: Registered)
    requires Quiet(s)
    ensures StartsHandled(RunProc(s, r), r)
  {
    var t := RunProc(s, r);
    if PushesItself(r) {
      PushObjPushed(s, r.o);
      forall i: nat ensures Handled(t, Object(r.o), i) {
        if i < |FieldsOf(s.heap, r.o)| { assert Accounted(t, r.o); }
      }
    } else if r.proc.IgnoreSelfProc? {
      var ws := Others(FieldsOf(s.heap, r.o), r.o);
      OthersHas(FieldsOf(s.heap, r.o), r.o);
      ScanWordsPushed(s, ws, 0, |ws|);
      forall w | w in Starts(s.heap, r) ensures w in t.marked {
        assert w in ws;
        var i :| 0 <= i < |ws| && ws[i] == w;
      }
    }
  }

  lemma ProcBounded(s: State, r: Registered)
    requires Quiet(s)
    ensures BoundedByStarts(s, r, RunProc(s, r))
  {
    var t := RunProc(s, r);
    ProcWordsOk(s, r);
    forall c | ClosedUnder(s.heap, c) && s.marked + Starts(s.heap, r) <= c
      ensures Bounded(t, c, if PushesItself(r) then c + {r.o} else c)
    {
      var d := if PushesItself(r) then c + {r.o} else c;
      StartsClosed(s, r, c);
      if PushesItself(r) {
        PushObjBounded(s, r.o, c, d);
      } else if r.proc.IgnoreSelfProc? {
        var ws := Others(FieldsOf(s.heap, r.o), r.o);
        OthersHas(FieldsOf(s.heap, r.o), r.o);
        ScanWordsBounded(s, ws, 0, |ws|, c, d);
      }
    }
  }

  lemma ProcWordsOk(s: State, r: Registered)
    requires Quiet(s)
    ensures WordsOk(RunProc(s, r)) && Pushed(s, RunProc(s, r))
  {
    if PushesItself(r) {
      PushObjPushed(s, r.o);
      var t := PushObj(s, r.o);
      forall src, i: nat | Live(t, src) && i < |WordsOf(t, src)| ensures WordOk(t, src, i) { WordOkPushed(s, t, src, i); }
    } else if r.proc.IgnoreSelfProc? {
      var ws := Others(FieldsOf(s.heap, r.o), r.o);
      ScanWordsPushed(s, ws, 0, |ws|);
      var nowhere := StaticArea(|s.statics|);
      ScanWordsOk(s, ws, 0, |ws|, nowhere, 0);
      ExceptNothing(ScanWords(s, ws, 0, |ws|), |ws|);
    }
  }

  lemma DrainStarts(s: State, r: Registered)
    requires Quiet(s)
    ensures Draining(s, r, RunProc(s, r))
  {
    ProcWordsOk(s, r);
    ProcHandles(s, r);
    ProcBounded(s, r);
    hide WordsOk, StartsHandled, BoundedByStarts, RunProc;
  }

  lemma SteadyKept(s0: State, s: State, u: State)
    requires Steady(s0, s) && Advanced(s, u)
    ensures Steady(s0, u) && (s.phase == Invalid ==> u.phase == Invalid)
  {
  }

  /** A pass over the mark stack keeps what Draining says. */
  lemma DrainKeeps(s0: State, r: Registered, s: State)
    requires Quiet(s0) && Draining(s0, r, s) && s.stack != []
    ensures StartsHandled(MarkFromStack(s), r) && BoundedByStarts(s0, r, MarkFromStack(s))
  {
    var u := MarkFromStack(s);
    assert s.(objectsMarked := true) == s;
    MarkFromOk(s, HBLK_WORDS);
    if PushesItself(r) {
      forall i: nat ensures Handled(u, Object(r.o), i) { MarkFromHandles(s, HBLK_WORDS, Object(r.o), i); }
    }
    forall c | ClosedUnder(s.heap, c) && s0.marked + Starts(s.heap, r) <= c
      ensures Bounded(u, c, if PushesItself(r) then c + {r.o} else c)
    {
      MarkFromBounded(s, HBLK_WORDS, c, if PushesItself(r) then c + {r.o} else c);
    }
  }

  /** What a pass may change. */
  lemma DrainFrame(s0: State, r: Registered, s: State)
    requires Quiet(s0) && Draining(s0, r, s) && s.stack != []
    ensures var u := MarkFromStack(s); WordsOk(u) && Advanced(s, u)
  {
    assert s.(objectsMarked := true) == s;
    MarkFromOk(s, HBLK_WORDS);
    hide WordsOk, Advanced, MarkFrom;
  }

  lemma DrainShrinks(s0: State, r: Registered, s: State)
    requires Quiet(s0) && Draining(s0, r, s) && s.stack != []
    ensures var u := MarkFromStack(s);
      Unmarked(u) < Unmarked(s) || (Unmarked(u) == Unmarked(s) && Work(u.stack) < Work(s.stack))
  {
    var u := MarkFromStack(s);
    DrainFrame(s0, r, s);
    assert s.(objectsMarked := true) == s && u == MarkFrom(s, HBLK_WORDS);
    assert |s.stack| <= s.capacity && INITIAL_MARK_STACK_SIZE <= s.capacity && WordsOk(s) && u.marked <= s.heap.home.Keys;
    hide Quiet, Draining, WordsOk, MarkFrom, MarkFromStack, Work;
    MarkFromWork(s, HBLK_WORDS);
    if u.marked != s.marked { SmallerSet(s.heap.home.Keys - u.marked, s.heap.home.Keys - s.marked); }
  }

  /** Each pass over the mark stack marks something new or shortens the work. */
  lemma DrainStep(s0: State, r: Registered, s: State)
    requires Quiet(s0) && Draining(s0, r, s) && s.stack != []
    ensures Draining(s0, r, MarkFromStack(s)) && (s.phase == Invalid ==> MarkFromStack(s).phase == Invalid)
    ensures Unmarked(MarkFromStack(s)) < Unmarked(s)
      || (Unmarked(MarkFromStack(s)) == Unmarked(s) && Work(MarkFromStack(s).stack) < Work(s.stack))
  {
    DrainKeeps(s0, r, s);
    DrainFrame(s0, r, s);
    DrainShrinks(s0, r, s);
    hide WordsOk, StartsHandled, BoundedByStarts, MarkFromStack, Work, Unmarked, Steady, Advanced, Quiet;
    SteadyKept(s0, s, MarkFromStack(s));
  }

  /** Without overflow, marking from r adds exactly what its starts reach. */
  lemma DrainEnds(s0: State, r: Registered, s: State)
    requires Quiet(s0) && Draining(s0, r, s) && s.stack == [] && s.phase == Idle
    ensures Finished(s0, s0.marked + Starts(s.heap, r), s)
  {
    assert forall w :: IsRootWord(s, w) <==> IsRootWord(s0, w);
    QuietClosed(s);
    forall w | w in Starts(s.heap, r) ensures w in s.marked {
      if PushesItself(r) {
        var i: nat :| i < |FieldsOf(s.heap, r.o)| && FieldsOf(s.heap, r.o)[i] == w;
        assert Handled(s, Object(r.o), i) && WordsOf(s, Object(r.o))[i] == w;
      }
    }
  }

  predicate Fewer(t: Measure, s: Measure) { t.unmarked < s.unmarked || (t.unmarked == s.unmarked && t.work < s.work) }

  /** The state in which the first loop of GC_MARK_FO ends; every pass makes the measure smaller (DrainStep). */
  ghost function Drained(s: State): State
    decreases MeasureOf(s).unmarked, MeasureOf(s).work
  {
    if s.stack == [] then s
    else var t := MarkFromStack(s); if Fewer(MeasureOf(t), MeasureOf(s)) then Drained(t) else t
  }

  /** Marking from r overflows the mark stack. */
  ghost predicate Overflows(s: State, r: Registered) { Drained(RunProc(s, r)).phase == Invalid }

  lemma DrainedNext(s0: State, r: Registered, s: State)
    requires Quiet(s0) && Draining(s0, r, s) && s.stack != []
    ensures Drained(s) == Drained(MarkFromStack(s))
  {
    DrainShrinks(s0, r, s);
    hide Quiet, Draining, MarkFromStack, Work, Unmarked;
  }

  lemma {:induction false} DrainedOk(s0: State, r: Registered, s: State)
    requires Quiet(s0) && Draining(s0, r, s)
    ensures var t := Drained(s);
      Draining(s0, r, t) && t.stack == [] && (s.phase == Invalid ==> t.phase == Invalid)
    decreases MeasureOf(s).unmarked, MeasureOf(s).work
  {
    if s.stack != [] {
      DrainStep(s0, r, s);
      DrainedNext(s0, r, s);
      hide Quiet, Draining, MarkFromStack, Work, Unmarked, Drained;
      DrainedOk(s0, r, MarkFromStack(s));
    } else {
      hide Draining;
    }
  }

  // ---------- overflow ----------

  /** The second loop of GC_MARK_FO: entries were dropped, r.o has been marked, and marking starts over. */
  ghost predicate Rescuing(s0: State, r: Registered, s: State) {
    && Inv(s) && s.stopped && !s.aborted && s.phase != Idle && SameWorld(s0, s) && s0.marked + {r.o} <= s.marked
    && forall c :: ClosedUnder(s.heap, c) && s0.marked + {r.o} <= c ==> Within(s, c)
  }

  /** After an overflow the mark of r.o makes up for the entry that may have been dropped. */
  lemma RescueStarts(s0: State, r: Registered, s: State)
    requires Quiet(s0) && Draining(s0, r, s) && s.stack == [] && s.phase == Invalid && r.o in s.heap.home
    ensures Rescuing(s0, r, s.(marked := s.marked + {r.o}))
  {
    var t := s.(marked := s.marked + {r.o});
    forall src, i: nat | Live(t, src) && i < |WordsOf(t, src)| ensures WordOk(t, src, i) {}
    assert Inv(t) by { assert Tracked(t) && Always(t) && FreshStartOk(t); }
    forall c | ClosedUnder(t.heap, c) && s0.marked + {r.o} <= c ensures Within(t, c) {
      forall w | w in Starts(s.heap, r) ensures w in c { assert w in FieldsOf(s.heap, r.o); }
      assert Bounded(s, c, if PushesItself(r) then c + {r.o} else c);
    }
  }

  lemma RescueClosed(s0: State, s: State, c: set<Obj>)
    requires Quiet(s0) && SameWorld(s0, s) && ClosedUnder(s.heap, c) && s0.marked <= c
    ensures MarksClosed(s, c)
  {
    assert forall w :: IsRootWord(s, w) <==> IsRootWord(s0, w);
  }

  lemma RescueStep(s0: State, r: Registered, s: State, a: Answer)
    requires Quiet(s0) && Rescuing(s0, r, s) && IsAnswer(s, a) && !Stuck(s, a) && |s.statics| <= INITIAL_MARK_STACK_SIZE / 2
    ensures var t := MarkSome(s, a);
      && (!t.done ==> Rescuing(s0, r, t.s))
      && (t.done ==> Finished(s0, s0.marked + {r.o}, t.s))
    ensures !MarkSome(s, a).done ==> Compare(MeasureOf(MarkSome(s, a).s), MeasureOf(s)) == Lower
  {
    var t := MarkSome(s, a);
    MarkSomeInv(s, a);
    MarkSomeNoAbort(s, a);
    MarkSomeNotIdle(s, a);
    MarkSomeCloser(s, a);
    forall c | ClosedUnder(s.heap, c) && s0.marked + {r.o} <= c ensures Within(t.s, c) {
      RescueClosed(s0, s, c);
      MarkSomeWithin(s, a, c);
    }
    if t.done { RescueEnds(s0, r, s, a); }
  }

  lemma RescueEnds(s0: State, r: Registered, s: State, a: Answer)
    requires Quiet(s0) && Rescuing(s0, r, s) && IsAnswer(s, a) && MarkSome(s, a).done
    requires Inv(MarkSome(s, a).s) && !MarkSome(s, a).s.aborted && SameWorld(s, MarkSome(s, a).s)
    requires forall c :: ClosedUnder(s.heap, c) && s0.marked + {r.o} <= c ==> MarkSome(s, a).s.marked <= c
    ensures var t := MarkSome(s, a).s; Quiet(t) && IsLeast(s.heap, s0.marked + {r.o}, t.marked)
  {
    ClosedAtEnd(s, a);
    var t := MarkSome(s, a).s;
    assert t.phase == Idle && t.objectsMarked && StraysMarked(t);
    forall o, w | o in t.marked && w in FieldsOf(t.heap, o) && w in t.heap.home ensures w in t.marked {
      var i: nat :| i < |FieldsOf(t.heap, o)| && FieldsOf(t.heap, o)[i] == w;
      if (o, i) !in t.stray { assert Refers(s, o, w); }
    }
    assert forall w :: IsRootWord(t, w) <==> IsRootWord(s, w);
  }

  ghost predicate Finished(s0: State, base: set<Obj>, s: State) {
    Quiet(s) && SameWorld(s0, s) && IsLeast(s.heap, base, s.marked)
  }

  /** Calls of GC_mark_some, with these answers. */
  ghost function Rescued(s: State, oks: seq<Answer>): State
    decreases |oks|
  {
    if oks == [] then s else Rescued(MarkSome(s, oks[0]).s, oks[1..])
  }

  lemma {:induction false} RescuedNext(s: State, oks: seq<Answer>, a: Answer)
    ensures Rescued(s, oks + [a]) == MarkSome(Rescued(s, oks), a).s
    decreases |oks|
  {
    hide MarkSome;
    if oks == [] {
      assert [] + [a] == [a] && [a][1..] == [];
    } else {
      RescuedNext(MarkSome(s, oks[0]).s, oks[1..], a);
      assert (oks + [a])[0] == oks[0] && (oks + [a])[1..] == oks[1..] + [a];
    }
  }

  /** The second loop of GC_MARK_FO comes to an end. */
  lemma {:induction false} RescueCompletes(s0: State, r: Registered, s: State) returns (oks: seq<Answer>)
    requires Quiet(s0) && Rescuing(s0, r, s) && |s.statics| <= INITIAL_MARK_STACK_SIZE / 2
    ensures Finished(s0, s0.marked + {r.o}, Rescued(s, oks))
    decreases MeasureOf(s).unmarked, MeasureOf(s).mixed, MeasureOf(s).deficit, MeasureOf(s).rank, MeasureOf(s).ahead, MeasureOf(s).work
  {
    hide Quiet, Rescuing, Finished, MarkSome, MeasureOf, Rescued, LeastMarks, IsAnswer, INITIAL_MARK_STACK_SIZE;
    var a, t := RescueOne(s0, r, s);
    if t.done {
      oks := [a];
      RescuedFirst(s, a, []);
      assert [a] + [] == [a];
    } else {
      var rest := RescueCompletes(s0, r, t.s);
      oks := [a] + rest;
      RescuedFirst(s, a, rest);
    }
  }

  lemma RescuedFirst(s: State, a: Answer, rest: seq<Answer>)
    ensures Rescued(s, [a] + rest) == Rescued(MarkSome(s, a).s, rest)
    ensures Rescued(MarkSome(s, a).s, []) == MarkSome(s, a).s
  {
    assert ([a] + rest)[0] == a && ([a] + rest)[1..] == rest;
    hide MarkSome;
  }

  lemma RescueOne(s0: State, r: Registered, s: State) returns (a: Answer, t: Outcome)
    requires Quiet(s0) && Rescuing(s0, r, s) && |s.statics| <= INITIAL_MARK_STACK_SIZE / 2
    ensures t == MarkSome(s, a) && t.s.statics == s.statics
    ensures t.done ==> Finished(s0, s0.marked + {r.o}, t.s)
    ensures !t.done ==> Rescuing(s0, r, t.s) && Smaller(MeasureOf(t.s), MeasureOf(s))
  {
    a := Answer(true, LeastMarks(s), false);
    AnswerExists(s, true);
    assert !Stuck(s, a);
    RescueStep(s0, r, s, a);
    t := MarkSome(s, a);
    hide Quiet, MarkSome, MeasureOf, LeastMarks, IsAnswer;
    RescueSameStatics(s0, r, s, t);
    if !t.done { LowerOrder(MeasureOf(t.s), MeasureOf(s)); }
  }

  lemma RescueSameStatics(s0: State, r: Registered, s: State, t: Outcome)
    requires Rescuing(s0, r, s) && (Rescuing(s0, r, t.s) || Finished(s0, s0.marked + {r.o}, t.s))
    ensures t.s.statics == s.statics
  {
  }

  /** The state after GC_MARK_FO for r. */
  ghost function AfterFo(s: State, r: Registered, oks: seq<Answer>): State {
    var d := Drained(RunProc(s, r));
    if d.phase == Idle then d else Rescued(d.(marked := d.marked + {r.o}), oks)
  }

  // ---------- all finalizable objects ----------

  /** What the first k entries that were not marked at first mark from. */
  ghost function StartsOf(h: Heap, marked: set<Obj>, es: seq<Registered>, k: nat): set<Obj>
    requires k <= |es|
  {
    set x, j | 0 <= j < k && es[j].o !in marked && x in Starts(h, es[j]) :: x
  }

  /** The state before the second loop of GC_finalize deals with entry k; answers[j] are those given during entry j. */
  ghost function Before(s0: State, es: seq<Registered>, answers: seq<seq<Answer>>, k: nat): State
    requires k <= |es|
  {
    if k == 0 then s0
    else
      var s, r := Before(s0, es, answers, k - 1), es[k - 1];
      if r.o in s.marked then s else AfterFo(s, r, if k <= |answers| then answers[k - 1] else [])
  }

  /** GC_MARK_FO is applied to entry k, and overflows the mark stack. */
  ghost predicate OverflowsAt(s0: State, es: seq<Registered>, answers: seq<seq<Answer>>, k: nat)
    requires k < |es|
  {
    var s := Before(s0, es, answers, k);
    es[k].o !in s.marked && Overflows(s, es[k])
  }

  /** The objects among the first k for which the mark stack overflows. */
  ghost function Over(s0: State, es: seq<Registered>, answers: seq<seq<Answer>>, k: nat): set<Obj>
    requires k <= |es|
  {
    if k == 0 then {}
    else Over(s0, es, answers, k - 1) + (if OverflowsAt(s0, es, answers, k - 1) then {es[k - 1].o} else {})
  }

  lemma {:induction false} OverIs(s0: State, es: seq<Registered>, answers: seq<seq<Answer>>, k: nat, o: Obj)
    requires k <= |es|
    ensures o in Over(s0, es, answers, k) <==> exists j :: 0 <= j < k && OverflowsAt(s0, es, answers, j) && es[j].o == o
  {
    hide OverflowsAt;
    if 0 < k {
      OverIs(s0, es, answers, k - 1, o);
      if OverflowsAt(s0, es, answers, k - 1) && es[k - 1].o == o { assert OverflowsAt(s0, es, answers, k - 1); }
    }
  }

  lemma {:induction false} BeforeSame(s0: State, es: seq<Registered>, answers: seq<seq<Answer>>, more: seq<seq<Answer>>, k: nat)
    requires k <= |es| && k <= |answers|
    ensures Before(s0, es, answers + more, k) == Before(s0, es, answers, k)
  {
    hide AfterFo;
    if 0 < k {
      BeforeSame(s0, es, answers, more, k - 1);
      assert (answers + more)[k - 1] == answers[k - 1];
    }
  }

  lemma {:induction false} OverSame(s0: State, es: seq<Registered>, answers: seq<seq<Answer>>, more: seq<seq<Answer>>, k: nat)
    requires k <= |es| && k <= |answers|
    ensures Over(s0, es, answers + more, k) == Over(s0, es, answers, k)
  {
    hide Before, Overflows;
    if 0 < k {
      OverSame(s0, es, answers, more, k - 1);
      BeforeSame(s0, es, answers, more, k - 1);
    }
  }

  /** What a state s has to do with a run of GC_MARK_FO that overflowed for the objects in over. */
  ghost predicate MarkedFrom(s0: State, es: seq<Registered>, k: nat, over: set<Obj>, s: State) {
    && Quiet(s) && SameWorld(s0, s) && k <= |es|
    && IsLeast(s.heap, s0.marked + StartsOf(s0.heap, s0.marked, es, k) + over, s.marked)
    && over <= (set j | 0 <= j < k :: es[j].o) && over !! s0.marked
  }

  /** The second loop of GC_finalize has dealt with k entries and has reached s. */
  ghost predicate Progress(s0: State, es: seq<Registered>, answers: seq<seq<Answer>>, k: nat, s: State) {
    && k <= |es| && |answers| == k && s == Before(s0, es, answers, k)
    && MarkedFrom(s0, es, k, Over(s0, es, answers, k), s)
  }

  lemma ProgressStarts(s0: State, es: seq<Registered>)
    requires Quiet(s0)
    ensures Progress(s0, es, [], 0, s0)
  {
    QuietClosed(s0);
    assert s0.marked + StartsOf(s0.heap, s0.marked, es, 0) + {} == s0.marked;
  }

  /** Entry k has been dealt with: the run goes on to t. */
  lemma ProgressNext(s0: State, es: seq<Registered>, answers: seq<seq<Answer>>, k: nat, s: State, oks: seq<Answer>, t: State)
    requires Progress(s0, es, answers, k, s) && k < |es|
    requires t == if es[k].o in s.marked then s else AfterFo(s, es[k], oks)
    requires MarkedFrom(s0, es, k + 1, Over(s0, es, answers, k) + (if es[k].o !in s.marked && Overflows(s, es[k]) then {es[k].o} else {}), t)
    ensures Progress(s0, es, answers + [oks], k + 1, t)
  {
    BeforeSame(s0, es, answers, [oks], k);
    OverSame(s0, es, answers, [oks], k);
    hide MarkedFrom, Overflows, AfterFo;
  }

  lemma StartsNext(h: Heap, marked: set<Obj>, es: seq<Registered>, k: nat)
    requires k < |es|
    ensures StartsOf(h, marked, es, k + 1) == StartsOf(h, marked, es, k) + (if es[k].o in marked then {} else Starts(h, es[k]))
  {
  }

  /** Entry k is marked already: what it marks from is marked too. */
  lemma MarkedSkip(s0: State, es: seq<Registered>, k: nat, over: set<Obj>, s: State)
    requires MarkedFrom(s0, es, k, over, s) && k < |es| && es[k].o in s.marked
    ensures MarkedFrom(s0, es, k + 1, over, s)
  {
    StartsNext(s0.heap, s0.marked, es, k);
    var base, more := s0.marked + StartsOf(s0.heap, s0.marked, es, k) + over, Starts(s.heap, es[k]);
    LeastGrows(s.heap, base, s.marked, if es[k].o in s0.marked then {} else more);
    assert s0.marked + StartsOf(s0.heap, s0.marked, es, k + 1) + over == base + (if es[k].o in s0.marked then {} else more);
    OverMore(es, k, over, over);
  }

  lemma LeastGrows(h: Heap, base: set<Obj>, m: set<Obj>, more: set<Obj>)
    requires IsLeast(h, base, m) && more <= m
    ensures IsLeast(h, base + more, m)
  {
  }

  lemma OverMore(es: seq<Registered>, k: nat, over: set<Obj>, over': set<Obj>)
    requires k < |es| && over <= (set j | 0 <= j < k :: es[j].o) && over' <= over + {es[k].o}
    ensures over' <= (set j | 0 <= j < k + 1 :: es[j].o)
  {
  }

  lemma StartsInside(h: Heap, r: Registered, m: set<Obj>)
    requires ClosedUnder(h, m) && r.o in m
    ensures Starts(h, r) <= m
  {
  }

  lemma StartsAdd(h: Heap, marked: set<Obj>, es: seq<Registered>, k: nat, over: set<Obj>, more: set<Obj>)
    requires k < |es| && es[k].o !in marked
    ensures var base, starts := marked + StartsOf(h, marked, es, k) + over, Starts(h, es[k]);
      && marked + StartsOf(h, marked, es, k + 1) + over == base + starts
      && marked + StartsOf(h, marked, es, k + 1) + (over + more) == base + more + starts
  {
    StartsNext(h, marked, es, k);
    hide StartsOf, Starts;
  }

  /** GC_MARK_FO for entry k, without overflow. */
  lemma MarkedMore(s0: State, es: seq<Registered>, k: nat, over: set<Obj>, s: State, t: State)
    requires MarkedFrom(s0, es, k, over, s) && k < |es| && es[k].o !in s.marked && Quiet(t) && SameWorld(s, t)
    requires IsLeast(s.heap, s.marked + Starts(s.heap, es[k]), t.marked)
    ensures MarkedFrom(s0, es, k + 1, over, t)
  {
    assert SameWorld(s0, t) && t.heap == s.heap == s0.heap && es[k].o !in s0.marked;
    hide StartsOf, Quiet, SameWorld, Starts, ClosedUnder, IsLeast;
    StartsAdd(s0.heap, s0.marked, es, k, over, {});
    LeastWiden(s.heap, s0.marked + StartsOf(s0.heap, s0.marked, es, k) + over, s.marked, Starts(s.heap, es[k]), t.marked);
    OverMore(es, k, over, over);
  }

  /** GC_MARK_FO for entry k, with an overflow. */
  lemma MarkedMoreOver(s0: State, es: seq<Registered>, k: nat, over: set<Obj>, s: State, t: State)
    requires MarkedFrom(s0, es, k, over, s) && k < |es| && es[k].o !in s.marked && Quiet(t) && SameWorld(s, t)
    requires IsLeast(s.heap, s.marked + {es[k].o}, t.marked)
    ensures MarkedFrom(s0, es, k + 1, over + {es[k].o}, t)
  {
    assert SameWorld(s0, t) && t.heap == s.heap == s0.heap && es[k].o !in s0.marked && es[k].o in t.marked;
    assert ClosedUnder(s.heap, t.marked);
    hide StartsOf, Quiet, SameWorld, Starts, ClosedUnder, IsLeast;
    var o, base := es[k].o, s0.marked + StartsOf(s0.heap, s0.marked, es, k) + over;
    StartsAdd(s0.heap, s0.marked, es, k, over, {o});
    LeastWiden(s.heap, base, s.marked, {o}, t.marked);
    StartsInside(s.heap, es[k], t.marked);
    LeastGrows(s.heap, base + {o}, t.marked, Starts(s.heap, es[k]));
    OverMore(es, k, over, over + {o});
  }

  /** GC_MARK_FO for entry k has finished. */
  lemma EntryDone(s0: State, es: seq<Registered>, answers: seq<seq<Answer>>, k: nat, s: State, oks: seq<Answer>)
    requires Progress(s0, es, answers, k, s) && k < |es| && es[k].o !in s.marked
    requires Finished(s, s.marked + (if Overflows(s, es[k]) then {es[k].o} else Starts(s.heap, es[k])), AfterFo(s, es[k], oks))
    ensures Progress(s0, es, answers + [oks], k + 1, AfterFo(s, es[k], oks))
  {
    hide Before, Over, Overflows, AfterFo, Quiet, IsLeast, StartsOf;
    if Overflows(s, es[k]) {
      MarkedMoreOver(s0, es, k, Over(s0, es, answers, k), s, AfterFo(s, es[k], oks));
    } else {
      MarkedMore(s0, es, k, Over(s0, es, answers, k), s, AfterFo(s, es[k], oks));
    }
    hide MarkedFrom, Finished, Progress;
    NextOf(s0, es, answers, k, s, oks);
  }

  lemma NextOf(s0: State, es: seq<Registered>, answers: seq<seq<Answer>>, k: nat, s: State, oks: seq<Answer>)
    requires Progress(s0, es, answers, k, s) && k < |es| && es[k].o !in s.marked
    requires var over := Over(s0, es, answers, k);
      MarkedFrom(s0, es, k + 1, if Overflows(s, es[k]) then over + {es[k].o} else over, AfterFo(s, es[k], oks))
    ensures Progress(s0, es, answers + [oks], k + 1, AfterFo(s, es[k], oks))
  {
    hide MarkedFrom, Overflows, AfterFo;
    var over := Over(s0, es, answers, k);
    assert over + {} == over;
    ProgressNext(s0, es, answers, k, s, oks, AfterFo(s, es[k], oks));
  }

  /** Entry k is marked already. */
  lemma EntrySkipped(s0: State, es: seq<Registered>, answers: seq<seq<Answer>>, k: nat, s: State)
    requires Progress(s0, es, answers, k, s) && k < |es| && es[k].o in s.marked
    ensures Progress(s0, es, answers + [[]], k + 1, s)
  {
    var over := Over(s0, es, answers, k);
    hide Before, Over, Overflows, AfterFo;
    MarkedSkip(s0, es, k, over, s);
    hide MarkedFrom;
    assert over + {} == over;
    ProgressNext(s0, es, answers, k, s, [], s);
  }

  // ---------- before and after ----------

  /** A mark phase that has just ended is what finalization starts from, unless a stray word has left something unmarked. */
  lemma LastStepQuiet(s: State, a: Answer, t: State)
    requires LastStep(s, a, t)
    ensures Quiet(t) <==> StraysMarked(t)
  {
    MarkSomeInv(s, a);
    ClosedAtEnd(s, a);
    assert t.phase == Idle && t.objectsMarked && t.stopped && !t.aborted;
    assert forall w :: IsRootWord(t, w) <==> IsRootWord(s, w);
    hide StraysMarked, MarkSome, WordsOk;
  }

  lemma StartsMarked(s0: State, es: seq<Registered>, k: nat, over: set<Obj>, s: State, r: Registered)
    requires MarkedFrom(s0, es, k, over, s) && r in es[..k] && r.o !in s0.marked
    ensures Starts(s.heap, r) <= s.marked
  {
    var j :| 0 <= j < k && es[j] == r;
    forall x | x in Starts(s.heap, r) ensures x in s.marked {
      assert x in StartsOf(s0.heap, s0.marked, es, k);
    }
  }

  /** o is enqueued with the procedure that marks nothing, and refers to something that is not marked. */
  ghost predicate LeavesOut(h: Heap, es: seq<Registered>, queued: set<Obj>, m: set<Obj>, o: Obj) {
    o in queued && Registered(o, NullProc) in es && !(Children(h, o) <= m)
  }

  /**
   * When the objects that are still unmarked have been enqueued and marked, the marks are closed again, exactly if
   * none of them was registered with the procedure that marks nothing and refers to something unmarked.
   */
  lemma EnqueuedClosed(s0: State, es: seq<Registered>, over: set<Obj>, s: State, queued: set<Obj>)
    requires MarkedFrom(s0, es, |es|, over, s) && queued !! s.marked
    requires forall o :: o in queued ==> exists r :: r in es && r.o == o
    requires forall r, r' :: r in es && r' in es && r.o == r'.o ==> r == r'
    ensures ClosedUnder(s.heap, s.marked + queued) <==> forall o :: !LeavesOut(s.heap, es, queued, s.marked + queued, o)
  {
    var m := s.marked + queued;
    QuietClosed(s);
    if forall o :: !LeavesOut(s.heap, es, queued, m, o) {
      forall o, w | o in m && w in FieldsOf(s.heap, o) && w in s.heap.home ensures w in m {
        if o !in s.marked { ChildMarked(s0, es, over, s, queued, o, w); }
      }
    } else {
      var o :| LeavesOut(s.heap, es, queued, m, o);
      var w :| w in Children(s.heap, o) && w !in m;
      assert o in m && w in FieldsOf(s.heap, o);
    }
  }

  lemma ChildMarked(s0: State, es: seq<Registered>, over: set<Obj>, s: State, queued: set<Obj>, o: Obj, w: Word)
    requires MarkedFrom(s0, es, |es|, over, s) && o in queued && o !in s.marked
    requires exists r :: r in es && r.o == o
    requires w in FieldsOf(s.heap, o) && w in s.heap.home && !LeavesOut(s.heap, es, queued, s.marked + queued, o)
    ensures w in s.marked + queued
  {
    var r :| r in es && r.o == o;
    assert w in Children(s.heap, o);
    assert es[..|es|] == es;
    StartsMarked(s0, es, |es|, over, s, r);
    match r.proc {
      case NullProc => assert r == Registered(o, NullProc);
      case _ => assert w == o || w in Starts(s.heap, r);
    }
  }

  // ---------- what is finalized ----------

  /** A chain of one or more pointers from an unmarked registered object, through its mark procedure. */
  ghost predicate Chain(h: Heap, marked: set<Obj>, es: seq<Registered>, p: seq<Obj>) {
    && 0 < |p| && p[0] in StartsOf(h, marked, es, |es|)
    && (forall i :: 0 <= i < |p| ==> p[i] in h.home)
    && forall i :: 0 <= i < |p| - 1 ==> p[i + 1] in FieldsOf(h, p[i])
  }

  ghost predicate ChainTo(h: Heap, marked: set<Obj>, es: seq<Registered>, x: Obj) {
    exists p :: Chain(h, marked, es, p) && p[|p| - 1] == x
  }

  lemma {:induction false} ChainInside(h: Heap, marked: set<Obj>, es: seq<Registered>, p: seq<Obj>, n: nat, m: set<Obj>)
    requires Chain(h, marked, es, p) && n < |p| && ClosedUnder(h, m) && StartsOf(h, marked, es, |es|) <= m
    ensures p[n] in m
  {
    if 0 < n {
      ChainInside(h, marked, es, p, n - 1, m);
      assert p[n - 1 + 1] in FieldsOf(h, p[n - 1]);
    }
  }

  lemma ChainExtends(h: Heap, marked: set<Obj>, es: seq<Registered>, o: Obj, w: Obj)
    requires ChainTo(h, marked, es, o) && w in FieldsOf(h, o) && w in h.home
    ensures ChainTo(h, marked, es, w)
  {
    var p :| Chain(h, marked, es, p) && p[|p| - 1] == o;
    assert Chain(h, marked, es, p + [w]);
  }

  lemma StartsChain(h: Heap, marked: set<Obj>, es: seq<Registered>, x: Obj)
    requires x in StartsOf(h, marked, es, |es|)
    ensures x in h.home && ChainTo(h, marked, es, x)
  {
    assert Chain(h, marked, es, [x]);
  }

  lemma ChainInLeast(h: Heap, marked: set<Obj>, es: seq<Registered>, m: set<Obj>, x: Obj)
    requires ClosedUnder(h, m) && StartsOf(h, marked, es, |es|) <= m && ChainTo(h, marked, es, x)
    ensures x in m
  {
    var p :| Chain(h, marked, es, p) && p[|p| - 1] == x;
    ChainInside(h, marked, es, p, |p| - 1, m);
  }

  lemma LeastInChains(h: Heap, marked: set<Obj>, es: seq<Registered>, m: set<Obj>)
    requires ClosedUnder(h, marked) && IsLeast(h, marked + StartsOf(h, marked, es, |es|), m)
    ensures m <= marked + ChainSet(h, marked, es)
  {
    hide StartsOf, ChainSet, ClosedUnder, IsLeast;
    ChainSetClosed(h, marked, es);
    LeastBound(h, marked + StartsOf(h, marked, es, |es|), m, marked + ChainSet(h, marked, es));
  }

  lemma LeastBound(h: Heap, base: set<Obj>, m: set<Obj>, c: set<Obj>)
    requires IsLeast(h, base, m) && ClosedUnder(h, c) && base <= c
    ensures m <= c
  {
  }

  lemma LeastByChains(h: Heap, marked: set<Obj>, es: seq<Registered>, m: set<Obj>, x: Obj)
    requires ClosedUnder(h, marked) && IsLeast(h, marked + StartsOf(h, marked, es, |es|), m)
    ensures x in m <==> x in marked || ChainTo(h, marked, es, x)
  {
    LeastInChains(h, marked, es, m);
    hide StartsOf, ChainTo, ClosedUnder;
    if ChainTo(h, marked, es, x) { ChainInLeast(h, marked, es, m, x); }
  }

  lemma LeastByEntries(s0: State, es: seq<Registered>, s: State, x: Obj)
    requires Quiet(s0) && MarkedFrom(s0, es, |es|, {}, s)
    ensures x in s.marked <==> x in s0.marked || ChainTo(s0.heap, s0.marked, es, x)
  {
    QuietClosed(s0);
    var base := s0.marked + StartsOf(s0.heap, s0.marked, es, |es|);
    assert base + {} == base;
    LeastByChains(s0.heap, s0.marked, es, s.marked, x);
  }

  ghost function ChainSet(h: Heap, marked: set<Obj>, es: seq<Registered>): set<Obj> {
    set y | y in h.home && ChainTo(h, marked, es, y)
  }

  lemma ChainSetClosed(h: Heap, marked: set<Obj>, es: seq<Registered>)
    requires ClosedUnder(h, marked)
    ensures ClosedUnder(h, marked + ChainSet(h, marked, es)) && StartsOf(h, marked, es, |es|) <= ChainSet(h, marked, es)
  {
    var c := marked + ChainSet(h, marked, es);
    forall y | y in StartsOf(h, marked, es, |es|) ensures y in ChainSet(h, marked, es) { StartsChain(h, marked, es, y); }
    forall o, w | o in c && w in FieldsOf(h, o) && w in h.home ensures w in c {
      if o !in marked { ChainExtends(h, marked, es, o, w); }
    }
  }

  lemma ChainSetLeast(h: Heap, marked: set<Obj>, es: seq<Registered>)
    requires ClosedUnder(h, marked)
    ensures IsLeast(h, marked + StartsOf(h, marked, es, |es|), marked + ChainSet(h, marked, es))
  {
    ChainSetClosed(h, marked, es);
    forall c | ClosedUnder(h, c) && marked + StartsOf(h, marked, es, |es|) <= c ensures ChainSet(h, marked, es) <= c {
      forall x | x in ChainSet(h, marked, es) ensures x in c { ChainInLeast(h, marked, es, c, x); }
    }
  }

  /** The object of entry r is to be finalized: it was not marked, and no chain leads to it. */
  ghost predicate Deserves(s0: State, es: seq<Registered>, r: Registered) {
    r.o !in s0.marked && !ChainTo(s0.heap, s0.marked, es, r.o)
  }

  /** Exactly the entries that deserve it are left unmarked. */
  ghost predicate QueuesExactly(s0: State, es: seq<Registered>, s: State) {
    forall r :: r in es ==> (r.o !in s.marked <==> Deserves(s0, es, r))
  }

  lemma OverflowsHarmless(s0: State, es: seq<Registered>, over: set<Obj>, s: State)
    requires Quiet(s0) && MarkedFrom(s0, es, |es|, over, s)
    requires forall o :: o in over ==> ChainTo(s0.heap, s0.marked, es, o)
    ensures QueuesExactly(s0, es, s)
  {
    QuietClosed(s0);
    var h, m, starts := s0.heap, s0.marked, StartsOf(s0.heap, s0.marked, es, |es|);
    ChainSetLeast(h, m, es);
    forall o | o in over ensures o in ChainSet(h, m, es) { OverRegistered(s0, es, over, s, o); }
    hide Quiet, IsLeast, StartsOf, ChainTo, Inv, ClosedUnder;
    LeastGrows(h, m + starts, m + ChainSet(h, m, es), over);
    LeastUnique(h, m + starts + over, m + ChainSet(h, m, es), s.marked);
    forall r | r in es ensures r.o !in s.marked <==> Deserves(s0, es, r) {
      if ChainTo(h, m, es, r.o) { ChainInHome(h, m, es, r.o); }
    }
  }

  lemma ChainInHome(h: Heap, marked: set<Obj>, es: seq<Registered>, x: Obj)
    requires ChainTo(h, marked, es, x)
    ensures x in h.home
  {
  }

  lemma OverRegistered(s0: State, es: seq<Registered>, over: set<Obj>, s: State, o: Obj)
    requires MarkedFrom(s0, es, |es|, over, s) && o in over
    ensures o in s.marked && o !in s0.marked && (exists r :: r in es && r.o == o)
    ensures ChainTo(s0.heap, s0.marked, es, o) ==> o in ChainSet(s0.heap, s0.marked, es)
  {
    var j :| 0 <= j < |es| && es[j].o == o;
    assert es[j] in es;
    if ChainTo(s0.heap, s0.marked, es, o) { ChainInHome(s0.heap, s0.marked, es, o); }
  }

  lemma HarmlessIff(s0: State, es: seq<Registered>, over: set<Obj>, s: State)
    requires Quiet(s0) && MarkedFrom(s0, es, |es|, over, s)
    ensures QueuesExactly(s0, es, s) <==> forall o :: o in over ==> ChainTo(s0.heap, s0.marked, es, o)
  {
    if forall o :: o in over ==> ChainTo(s0.heap, s0.marked, es, o) {
      OverflowsHarmless(s0, es, over, s);
    } else {
      var o :| o in over && !ChainTo(s0.heap, s0.marked, es, o);
      OverRegistered(s0, es, over, s, o);
      var r :| r in es && r.o == o;
      assert Deserves(s0, es, r) && r.o in s.marked;
    }
  }

  /** Whenever the mark stack overflows while marking from a registered object, a chain leads to that object. */
  ghost predicate OverflowsOnlyOnChains(s0: State, es: seq<Registered>, answers: seq<seq<Answer>>) {
    forall k :: 0 <= k < |es| && OverflowsAt(s0, es, answers, k) ==> ChainTo(s0.heap, s0.marked, es, es[k].o)
  }

  /**
   * The queue is exactly right if and only if the mark stack overflows at most while marking from objects
   * that a chain leads to.  An object for which it overflows is marked, and waits for another collection.
   * Whether it overflows is computed from the first state, the entries, and what GC_mark_some is answered.
   */
  lemma ExactUnlessOverflow(s0: State, es: seq<Registered>, answers: seq<seq<Answer>>, s: State)
    requires Quiet(s0) && Progress(s0, es, answers, |es|, s)
    ensures QueuesExactly(s0, es, s) <==> OverflowsOnlyOnChains(s0, es, answers)
  {
    var over := Over(s0, es, answers, |es|);
    HarmlessIff(s0, es, over, s);
    forall o ensures o in over <==> exists j :: 0 <= j < |es| && OverflowsAt(s0, es, answers, j) && es[j].o == o {
      OverIs(s0, es, answers, |es|, o);
    }
    hide QueuesExactly, OverflowsAt, ChainTo, MarkedFrom, Quiet, Over;
  }

  /** Without overflow, exactly the objects marked at first and those a chain leads to end up marked. */
  lemma MarkedByChains(s0: State, es: seq<Registered>, answers: seq<seq<Answer>>, s: State, x: Obj)
    requires Quiet(s0) && Progress(s0, es, answers, |es|, s)
    requires forall k :: 0 <= k < |es| ==> !OverflowsAt(s0, es, answers, k)
    ensures x in s.marked <==> x in s0.marked || ChainTo(s0.heap, s0.marked, es, x)
  {
    forall o ensures o !in Over(s0, es, answers, |es|) { OverIs(s0, es, answers, |es|, o); }
    assert Over(s0, es, answers, |es|) == {};
    hide OverflowsAt, Quiet, MarkedFrom, Before;
    LeastByEntries(s0, es, s, x);
  }

  lemma StartsSame(h: Heap, marked: set<Obj>, es: seq<Registered>, fs: seq<Registered>)
    requires forall x :: x in es ==> x in fs
    ensures StartsOf(h, marked, es, |es|) <= StartsOf(h, marked, fs, |fs|)
  {
    forall x | x in StartsOf(h, marked, es, |es|) ensures x in StartsOf(h, marked, fs, |fs|) {
      var j :| 0 <= j < |es| && es[j].o !in marked && x in Starts(h, es[j]);
      assert es[j] in fs;
      var k :| 0 <= k < |fs| && fs[k] == es[j];
    }
  }

  /** Which objects deserve to be finalized does not depend on the order of the table. */
  lemma OrderIrrelevant(s0: State, es: seq<Registered>, fs: seq<Registered>, r: Registered)
    requires forall x :: x in es <==> x in fs
    ensures Deserves(s0, es, r) <==> Deserves(s0, fs, r)
  {
    var h, m := s0.heap, s0.marked;
    StartsSame(h, m, es, fs);
    StartsSame(h, m, fs, es);
    hide StartsOf;
    forall p ensures Chain(h, m, es, p) <==> Chain(h, m, fs, p) {}
  }

  // ---------- when the stack is large enough ----------

  /** The mark stack has room for every object that is not yet marked. */
  ghost predicate Room(s: State) { |s.stack| + Unmarked(s) <= s.capacity && s.phase != Invalid }

  lemma OneLess(a: set<Obj>, b: set<Obj>, w: Obj)
    requires w in a && w !in b
    ensures |a - (b + {w})| == |a - b| - 1
  {
    assert a - b == (a - (b + {w})) + {w};
  }

  lemma PushContentsRoom(s: State, w: Word)
    requires Room(s)
    ensures Room(PushContents(s, w)) && PushContents(s, w).capacity == s.capacity
  {
    if w in s.heap.home && w !in s.marked { OneLess(s.heap.home.Keys, s.marked, w); }
    hide DISCARDS, INITIAL_MARK_STACK_SIZE;
  }

  lemma {:induction false} ScanWordsRoom(s: State, ws: seq<Word>, lo: nat, hi: nat)
    requires Room(s)
    ensures Room(ScanWords(s, ws, lo, hi)) && ScanWords(s, ws, lo, hi).capacity == s.capacity
    decreases hi - lo
  {
    if lo < hi && lo < |ws| {
      PushContentsRoom(s, ws[lo]);
      hide PushContents, Unmarked;
      ScanWordsRoom(PushContents(s, ws[lo]), ws, lo + 1, hi);
    }
  }

  lemma {:induction false} MarkFromRoom(s: State, credit: int)
    requires Room(s)
    ensures Room(MarkFrom(s, credit)) && MarkFrom(s, credit).capacity == s.capacity
    decreases if credit < 0 then 0 else credit + 1, |s.stack|
  {
    if 0 <= credit && 0 < |s.stack| {
      var e := s.stack[|s.stack| - 1];
      var r := s.(stack := WithoutPiece(s.stack), objectsMarked := true);
      ScanWordsRoom(r, WordsOf(s, e.src), e.lo, PieceEnd(e));
      hide Unmarked, ScanWords;
      MarkFromRoom(MarkStep(s), credit - Cost(e));
    }
  }

  lemma {:induction false} DrainedRoom(s: State)
    requires Room(s)
    ensures Room(Drained(s)) && Drained(s).capacity == s.capacity
    decreases MeasureOf(s).unmarked, MeasureOf(s).work
  {
    if s.stack != [] {
      MarkFromRoom(s.(objectsMarked := true), HBLK_WORDS);
      var t := MarkFromStack(s);
      if Fewer(MeasureOf(t), MeasureOf(s)) { DrainedRoom(t); }
    }
  }

  lemma ProcRoom(s: State, r: Registered)
    requires s.stack == [] && s.phase == Idle && Unmarked(s) < s.capacity
    ensures Room(RunProc(s, r))
  {
    hide Unmarked;
    if r.proc.IgnoreSelfProc? {
      var ws := Others(FieldsOf(s.heap, r.o), r.o);
      hide Others;
      ScanWordsRoom(s, ws, 0, |ws|);
    } else if PushesItself(r) {
      assert Unmarked(PushObj(s, r.o)) == Unmarked(s) by { PushSameMarks(s, r.o); }
    }
  }

  lemma PushSameMarks(s: State, o: Obj)
    ensures Unmarked(PushObj(s, o)) == Unmarked(s)
  {
    assert PushObj(s, o).marked == s.marked && PushObj(s, o).heap == s.heap;
    hide PushObj;
  }

  /** A mark stack with more entries than there are unmarked objects does not overflow. */
  lemma RoomNoOverflow(s: State, r: Registered)
    requires Quiet(s) && Unmarked(s) < s.capacity
    ensures !Overflows(s, r)
  {
    ProcRoom(s, r);
    hide Quiet, RunProc, Drained;
    DrainedRoom(RunProc(s, r));
  }

  lemma NoOverflowAfter(s: State, r: Registered, oks: seq<Answer>)
    requires Quiet(s) && !Overflows(s, r)
    ensures Finished(s, s.marked + Starts(s.heap, r), AfterFo(s, r, oks)) && AfterFo(s, r, oks).capacity == s.capacity
  {
    DrainStarts(s, r);
    DrainedOk(s, r, RunProc(s, r));
    var d := Drained(RunProc(s, r));
    assert Steady(s, d);
    hide Drained, RunProc;
    DrainEnds(s, r, d);
  }

  lemma FewerUnmarked(s: State, t: State)
    requires t.heap == s.heap && s.marked <= t.marked
    ensures Unmarked(t) <= Unmarked(s)
  {
    var a, b := s.heap.home.Keys - t.marked, s.heap.home.Keys - s.marked;
    if a != b { SmallerSet(a, b); }
  }

  lemma RoomAfter(s: State, r: Registered, oks: seq<Answer>)
    requires Quiet(s) && Unmarked(s) < s.capacity
    ensures var t := AfterFo(s, r, oks); Quiet(t) && Unmarked(t) < t.capacity
  {
    RoomNoOverflow(s, r);
    NoOverflowAfter(s, r, oks);
    hide AfterFo, Quiet, Overflows, Unmarked, Starts, RunProc;
    var t := AfterFo(s, r, oks);
    assert Finished(s, s.marked + Starts(s.heap, r), t);
    FewerUnmarked(s, t);
  }

  /** If there is room at first there is room before every entry. */
  lemma {:induction false} RoomBefore(s0: State, es: seq<Registered>, answers: seq<seq<Answer>>, k: nat)
    requires Quiet(s0) && Unmarked(s0) < s0.capacity && k <= |es|
    ensures var s := Before(s0, es, answers, k); Quiet(s) && Unmarked(s) < s.capacity
    ensures Over(s0, es, answers, k) == {}
  {
    hide Quiet, Unmarked, AfterFo, Overflows;
    if 0 < k {
      RoomBefore(s0, es, answers, k - 1);
      var s, r := Before(s0, es, answers, k - 1), es[k - 1];
      RoomNoOverflow(s, r);
      RoomAfter(s, r, if k <= |answers| then answers[k - 1] else []);
    }
  }

  /**
   * With more entries in the mark stack than there are unmarked objects when GC_finalize begins, the queue is
   * exactly right: this can be checked before the call.
   */
  lemma ExactIfRoom(s0: State, es: seq<Registered>, answers: seq<seq<Answer>>, s: State)
    requires Quiet(s0) && Progress(s0, es, answers, |es|, s) && Unmarked(s0) < s0.capacity
    ensures QueuesExactly(s0, es, s)
  {
    RoomBefore(s0, es, answers, |es|);
    hide Quiet, Before, Over;
    HarmlessIff(s0, es, {}, s);
  }

  // ---------- an overflow that delays a finalizer ----------

  lemma {:induction false} TooManyWords(s: State, ws: seq<Word>, i: nat)
    requires i <= |ws| && |s.stack| <= s.capacity && INITIAL_MARK_STACK_SIZE <= s.capacity
    requires s.phase == Invalid || |s.stack| + |ws| - i > s.capacity
    requires forall j :: i <= j < |ws| ==> Scanned(s.heap, ws[j]) && ws[j] !in s.marked
    requires forall j, k :: 0 <= j < k < |ws| ==> ws[j] != ws[k]
    ensures ScanWords(s, ws, i, |ws|).phase == Invalid
    decreases |ws| - i
  {
    if i < |ws| {
      PushNew(s, ws[i]);
      hide PushContents, Scanned;
      TooManyWords(PushContents(s, ws[i]), ws, i + 1);
    }
  }

  lemma PushNew(s: State, w: Word)
    requires |s.stack| <= s.capacity && INITIAL_MARK_STACK_SIZE <= s.capacity && Scanned(s.heap, w) && w !in s.marked
    ensures var t := PushContents(s, w);
      && t.heap == s.heap && t.capacity == s.capacity && t.marked == s.marked + {w} && |t.stack| <= t.capacity
      && (t.phase == Invalid || |t.stack| == |s.stack| + 1) && (s.phase == Invalid ==> t.phase == Invalid)
  {
    PushContentsPushed(s, w);
    hide DISCARDS, INITIAL_MARK_STACK_SIZE;
  }

  /** Children of the object of Wide, one more than the mark stack has room for. */
  function WideChild(j: nat): Obj { INITIAL_MARK_STACK_SIZE + 3 + j }

  function WideChildren(): (ws: seq<Word>)
    ensures |ws| == INITIAL_MARK_STACK_SIZE + 1 && forall j: nat :: j < |ws| ==> ws[j] == WideChild(j)
  {
    seq(INITIAL_MARK_STACK_SIZE + 1, (j: nat) => WideChild(j))
  }

  /** A heap with an object 1 and more children than the mark stack has room for; each in its own block. */
  function WideHeap(): Heap {
    var n := INITIAL_MARK_STACK_SIZE;
    var kids := set w | w in WideChildren();
    Heap(map k | k in {1} + kids :: Block(if k == 1 then n + 2 else 1, NORMAL, [k]),
         map o | o in {1} + kids :: o,
         map o | o in {1} + kids :: if o == 1 then WideChildren() else [])
  }

  /** Nothing is marked and there are no roots; object 1 has a finalizer that ignores self-references. */
  function Wide(): State {
    State(WideHeap(), [], [], {}, [], INITIAL_MARK_STACK_SIZE, Idle, 0, false, true, {}, {}, true, false, false, false, false, {})
  }

  lemma WideIs(o: Obj)
    ensures var h := WideHeap();
      && (o in h.home <==> o == 1 || o in WideChildren()) && (o in h.home <==> o in h.blocks) && (o in h.home <==> o in h.contents)
      && (o in h.home ==> h.home[o] == o && h.blocks[o] == Block(if o == 1 then INITIAL_MARK_STACK_SIZE + 2 else 1, NORMAL, [o]))
      && (o in h.home ==> h.contents[o] == if o == 1 then WideChildren() else [])
      && (o in WideChildren() ==> INITIAL_MARK_STACK_SIZE + 3 <= o)
  {
  }

  lemma WidePage(o: Obj, i: nat)
    requires var h := WideHeap(); o in h.home && o in h.contents && i < |h.contents[o]|
    ensures var h := WideHeap(); o in h.blocks && h.home[o] == o && PageOf(h, o, i) < o + h.blocks[o].nblks
  {
    WideIs(o);
    Quotient(i);
    hide WideHeap, WideChildren;
  }

  lemma WideBlock(o: nat)
    ensures var h := WideHeap();
      && (o in h.home ==> (o == 1 || INITIAL_MARK_STACK_SIZE + 3 <= o) && h.home[o] == o && o in h.blocks && o in h.contents)
      && (o in h.blocks ==> o in h.home && h.blocks[o] == Block(if o == 1 then INITIAL_MARK_STACK_SIZE + 2 else 1, NORMAL, [o]))
  {
    WideIs(o);
    hide WideHeap;
  }

  lemma WideBlocks()
    ensures var h := WideHeap();
      (forall k :: k in h.blocks ==> 1 <= k && 1 <= h.blocks[k].nblks && |h.blocks[k].objs| <= MAX_BLOCK_OBJECTS)
      && (forall k, l :: k in h.blocks && l in h.blocks && k < l ==> k + h.blocks[k].nblks <= l)
  {
    var h := WideHeap();
    hide WideHeap;
    forall k, l | k in h.blocks && l in h.blocks && k < l ensures k + h.blocks[k].nblks <= l {
      WideBlock(k);
      WideBlock(l);
    }
    forall k | k in h.blocks ensures 1 <= k && 1 <= h.blocks[k].nblks && |h.blocks[k].objs| <= MAX_BLOCK_OBJECTS { WideBlock(k); }
  }

  lemma WideHomes()
    ensures var h := WideHeap();
      (forall k, i :: k in h.blocks && 0 <= i < |h.blocks[k].objs| ==> h.blocks[k].objs[i] in h.home && h.home[h.blocks[k].objs[i]] == k)
      && (forall o :: o in h.home ==> o in h.contents && h.home[o] in h.blocks && o in h.blocks[h.home[o]].objs)
  {
    var h := WideHeap();
    hide WideHeap;
    forall k | k in h.blocks ensures k in h.home && h.home[k] == k && h.blocks[k].objs == [k] { WideBlock(k); }
    forall o | o in h.home ensures o in h.contents && h.home[o] in h.blocks && o in h.blocks[h.home[o]].objs { WideBlock(o); }
  }

  lemma WideWf()
    ensures HeapWf(WideHeap())
  {
    WideBlocks();
    WideHomes();
    var h := WideHeap();
    hide WideHeap, PageOf;
    forall o, i: nat | o in h.home && i < |h.contents[o]| ensures PageOf(h, o, i) < h.home[o] + h.blocks[h.home[o]].nblks { WidePage(o, i); }
  }

  lemma Quotient(i: nat)
    ensures i / HBLK_WORDS <= i
  {
    Arithmetic.MulMono(1, HBLK_WORDS, i / HBLK_WORDS);
  }

  lemma WideQuiet()
    ensures Quiet(Wide())
  {
    WideWf();
    WideKinds();
    hide WideHeap, HeapWf;
  }

  lemma WideKinds()
    ensures KindsRescanned(Wide())
  {
    forall k | k in WideHeap().blocks ensures WideHeap().blocks[k].kind == NORMAL { WideIs(k); }
  }

  lemma WideScanned(o: Obj)
    requires o == 1 || o in WideChildren()
    ensures Scanned(WideHeap(), o) && FieldsOf(WideHeap(), o) == if o == 1 then WideChildren() else []
  {
    WideIs(o);
  }

  lemma WideOverflows()
    ensures RunProc(Wide(), Registered(1, IgnoreSelfProc)).phase == Invalid
  {
    var s, ws := Wide(), WideChildren();
    WideProc();
    forall j | 0 <= j < |ws| ensures Scanned(s.heap, ws[j]) && ws[j] !in s.marked { WideScanned(ws[j]); }
    hide WideHeap, RunProc, FieldsOf, ScanWords, Scanned;
    assert forall j, k :: 0 <= j < k < |ws| ==> ws[j] != ws[k];
    TooManyWords(s, ws, 0);
  }

  lemma WideProc()
    ensures RunProc(Wide(), Registered(1, IgnoreSelfProc)) == ScanWords(Wide(), WideChildren(), 0, |WideChildren()|)
  {
    WideIs(1);
    WideScanned(1);
    NoSelf(WideChildren(), 1);
    hide WideHeap, ScanWords, Others, WideChildren;
    assert FieldsOf(Wide().heap, 1) == WideChildren();
  }

  /** GC_MARK_FO marks the object for which the stack overflows. */
  lemma OverflowMarks(s0: State, r: Registered) returns (oks: seq<Answer>)
    requires Quiet(s0) && Overflows(s0, r) && r.o in s0.heap.home && |s0.statics| <= INITIAL_MARK_STACK_SIZE / 2
    ensures Finished(s0, s0.marked + {r.o}, AfterFo(s0, r, oks))
  {
    DrainStarts(s0, r);
    DrainedOk(s0, r, RunProc(s0, r));
    var d := Drained(RunProc(s0, r));
    assert Steady(s0, d) && d.statics == s0.statics && d.heap == s0.heap;
    hide Drained, RunProc, Quiet, Draining, Rescuing, Finished;
    RescueStarts(s0, r, d);
    oks := RescueCompletes(s0, r, d.(marked := d.marked + {r.o}));
  }

  lemma LeastHas(s0: State, base: set<Obj>, s: State, o: Obj)
    requires Finished(s0, base, s) && o in base
    ensures o in s.marked
  {
  }

  /**
   * No chain leads to object 1, so it deserves to be finalized; but marking from it overflows the mark
   * stack, and when GC_finalize has dealt with it, it is marked: it is not enqueued.
   */
  lemma OverflowDelays() returns (answers: seq<seq<Answer>>, s: State)
    ensures var r := Registered(1, IgnoreSelfProc);
      && Quiet(Wide()) && Deserves(Wide(), [r], r) && OverflowsAt(Wide(), [r], answers, 0)
      && Progress(Wide(), [r], answers, 1, s) && 1 in s.marked && !QueuesExactly(Wide(), [r], s)
  {
    var r := Registered(1, IgnoreSelfProc);
    WideQuiet();
    WideDrains();
    NoChainTo1();
    WideIs(1);
    assert Wide().marked == {} && |Wide().statics| == 0;
    hide WideHeap, Quiet, ChainTo, Drained, RunProc, Starts;
    var oks := OverflowMarks(Wide(), r);
    LeastHas(Wide(), Wide().marked + {1}, AfterFo(Wide(), r, oks), 1);
    hide Finished;
    hide AfterFo, Overflows, Wide;
    answers, s := [oks], AfterFo(Wide(), r, oks);
    FirstOverflows(Wide(), r, oks);
    var es := [r];
    assert es[0] == r && r in es;
    FirstDone(Wide(), es, answers, oks);
    hide Progress, OverflowsAt, Deserves;
  }

  lemma FirstDone(s0: State, es: seq<Registered>, answers: seq<seq<Answer>>, oks: seq<Answer>)
    requires |es| == 1 && answers == [oks] && Quiet(s0) && es[0].o !in s0.marked && Overflows(s0, es[0])
    requires Finished(s0, s0.marked + {es[0].o}, AfterFo(s0, es[0], oks))
    ensures Progress(s0, es, answers, 1, AfterFo(s0, es[0], oks))
  {
    hide AfterFo, Overflows, Finished, Quiet, Progress, Before, Over, OverflowsAt, MarkedFrom, StartsOf, Starts, IsLeast;
    ProgressStarts(s0, es);
    EntryDone(s0, es, [], 0, s0, oks);
    assert [] + [oks] == answers;
  }

  lemma FirstOverflows(s0: State, r: Registered, oks: seq<Answer>)
    requires r.o !in s0.marked && Overflows(s0, r)
    ensures OverflowsAt(s0, [r], [oks], 0)
  {
    hide Overflows;
  }

  lemma WideDrains()
    ensures Overflows(Wide(), Registered(1, IgnoreSelfProc))
  {
    var r := Registered(1, IgnoreSelfProc);
    WideQuiet();
    WideOverflows();
    hide WideHeap, Quiet, RunProc, Drained, Wide;
    DrainStarts(Wide(), r);
    DrainedOk(Wide(), r, RunProc(Wide(), r));
  }

  lemma NoChainTo1()
    ensures !ChainTo(WideHeap(), {}, [Registered(1, IgnoreSelfProc)], 1)
  {
    var r := Registered(1, IgnoreSelfProc);
    forall p | Chain(WideHeap(), {}, [r], p) ensures p[|p| - 1] != 1 { ChainAway(p, r, |p| - 1); }
  }

  lemma {:induction false} NoSelf(ws: seq<Word>, o: Obj)
    requires o !in ws
    ensures Others(ws, o) == ws
  {
    if ws != [] { NoSelf(ws[1..], o); }
  }

  lemma ChainAway(p: seq<Obj>, r: Registered, n: nat)
    requires r == Registered(1, IgnoreSelfProc) && Chain(WideHeap(), {}, [r], p) && n < |p|
    ensures p[n] != 1
  {
    WideIs(1);
    if 0 < n {
      assert p[n - 1] in WideHeap().home && p[n - 1 + 1] in FieldsOf(WideHeap(), p[n - 1]);
      WideIs(p[n - 1]);
      WideScanned(p[n - 1]);
    }
  }
}
