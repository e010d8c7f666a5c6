/**
The state of the marker and its steps, as functions on that state
(libs/gc/mark.c, with the macros of libs/gc/include/private/gc_pmark.h).

An object is named by its base address; a word of memory refers to the object it names, if that
object is in the heap (that is, the word stands for what GC_base makes of it).  The class
Collector updates the same state in place and is proved against these functions.
 */
module MarkModel {
  import B = ShareBound

  type Obj = nat
  type Word = nat

  type Positive = n: nat | 0 < n witness 1
  type StackSize = n: nat | 16 <= n witness 16

  /** HBLKSIZE in words. */
  const HBLK_WORDS: Positive

  type ShareSize = n: nat | n == 256 || n == 512 witness 256

  /** SHARE_BYTES in words of 8 or of 4 bytes. */
  const SHARE_WORDS: ShareSize

  /** GC_markers: the most threads that mark in parallel. */
  const MARKERS: Positive

  /** INITIAL_MARK_STACK_SIZE, in entries; the source sets it to HBLKSIZE. */
  const INITIAL_MARK_STACK_SIZE: StackSize

  /** GC_MARK_STACK_DISCARDS: entries dropped on overflow. */
  const DISCARDS: nat := INITIAL_MARK_STACK_SIZE / 8

  /** HBLKSIZE / GRANULE_BYTES with GRANULE_BYTES >= 8: the most objects one block can hold. */
  const MAX_BLOCK_OBJECTS: nat := INITIAL_MARK_STACK_SIZE / 8

  const SPLIT_RANGE_WORDS: nat := 128

  // Object kinds, in the numbering of this repository (PRECISE is its addition).
  const PTRFREE: nat := 0
  const NORMAL: nat := 1
  const UNCOLLECTABLE: nat := 2
  const PRECISE: nat := 3
  const AUNCOLLECTABLE: nat := 4

  datatype Phase = Idle | PushRescuers | PushUncollectable | RootsPushed | PartiallyInvalid | Invalid

  datatype Block = Block(nblks: nat, kind: nat, objs: seq<Obj>)

  /** Used blocks by number (address / HBLKSIZE), the block of each object, and its words. */
  datatype Heap = Heap(blocks: map<nat, Block>, home: map<Obj, nat>, contents: map<Obj, seq<Word>>)

  datatype Source = Object(o: Obj) | StaticArea(k: nat)

  /** A mark stack entry: words lo (incl.) to hi (excl.) of an object or of a static root area. */
  datatype Entry = Entry(src: Source, lo: nat, hi: nat)

  datatype State = State(
    heap: Heap,
    statics: seq<seq<Word>>,      // the pieces of static data that root pushing pushes
    stackRoots: seq<Word>,        // thread stacks and registers
    marked: set<Obj>,
    stack: seq<Entry>,            // GC_mark_stack[0 .. GC_mark_stack_top], top entry last
    capacity: nat,                // GC_mark_stack_size
    phase: Phase,                 // GC_mark_state
    scanPtr: nat,                 // scan_ptr, as a block number; 0 is the null pointer
    tooSmall: bool,               // GC_mark_stack_too_small
    objectsMarked: bool,          // GC_objects_are_marked
    dirty: set<nat>,              // GC_dirty_pages
    grungy: set<nat>,             // GC_grungy_pages
    stopped: bool,                // the world is stopped
    incremental: bool,            // GC_incremental, with dirty bits maintained
    atomicUncollectable: bool,    // built with ATOMIC_UNCOLLECTABLE
    aborted: bool,                // ABORT was called
    parallel: bool,               // GC_parallel
    stray: set<(Obj, nat)>)       // history: words that no phase looks at although a newer object lies where they point

  /** What GC_mark_some asks for: whether a larger stack can be allocated, and how GC_do_parallel_mark comes out. */
  datatype Answer = Answer(ok: bool, marks: set<Obj>, overflow: bool)

  // ---------- kinds ----------

  /** IS_UNCOLLECTABLE: with ATOMIC_UNCOLLECTABLE it ignores the low bit of the kind. */
  predicate IsUncollectable(kind: nat, atomicUncollectable: bool) {
    if atomicUncollectable then kind / 2 * 2 == UNCOLLECTABLE else kind == UNCOLLECTABLE
  }

  /** The mark descriptor of the kind is not zero, so its objects are scanned. */
  predicate HasDescr(kind: nat) {
    kind != PTRFREE && kind != AUNCOLLECTABLE
  }

  // ---------- heap ----------

  predicate Scanned(h: Heap, o: Obj) {
    o in h.home && h.home[o] in h.blocks && o in h.contents && HasDescr(h.blocks[h.home[o]].kind)
  }

  /** The words the marker reads in o. */
  function FieldsOf(h: Heap, o: Obj): seq<Word> {
    if Scanned(h, o) then h.contents[o] else []
  }

  function PageOf(h: Heap, o: Obj, i: nat): nat {
    if o in h.home then h.home[o] + i / HBLK_WORDS else 0
  }

  function WordsOf(s: State, src: Source): seq<Word> {
    match src
    case Object(o) => FieldsOf(s.heap, o)
    case StaticArea(k) => if k < |s.statics| then s.statics[k] else []
  }

  /** Every block lies apart from the others and knows its objects; every object has a block. */
  ghost predicate HeapWf(h: Heap) {
    && (forall k :: k in h.blocks ==> 1 <= k && 1 <= h.blocks[k].nblks && |h.blocks[k].objs| <= MAX_BLOCK_OBJECTS)
    && (forall k, k' :: k in h.blocks && k' in h.blocks && k < k' ==> k + h.blocks[k].nblks <= k')
    && (forall k, i :: k in h.blocks && 0 <= i < |h.blocks[k].objs| ==>
          h.blocks[k].objs[i] in h.home && h.home[h.blocks[k].objs[i]] == k)
    && (forall o :: o in h.home ==>
          o in h.contents && h.home[o] in h.blocks && o in h.blocks[h.home[o]].objs)
    && (forall o, i: nat :: o in h.home && i < |h.contents[o]| ==>
          PageOf(h, o, i) < h.home[o] + h.blocks[h.home[o]].nblks)
  }

  // ---------- the mark stack ----------

  /** The push of PUSH_OBJ: on overflow GC_signal_mark_stack_overflow drops DISCARDS entries. */
  function PushEntry(s: State, e: Entry): State {
    if |s.stack| < s.capacity then
      s.(stack := s.stack + [e])
    else
      var keep := if DISCARDS <= |s.stack| then |s.stack| - DISCARDS else 0;
      s.(phase := Invalid, tooSmall := true, stack := s.stack[..keep] + [e])
  }

  function PushObj(s: State, o: Obj): State {
    if Scanned(s.heap, o) then PushEntry(s, Entry(Object(o), 0, |s.heap.contents[o]|)) else s
  }

  /** PUSH_CONTENTS: w refers to an unmarked object, which is marked and pushed. */
  function PushContents(s: State, w: Word): State {
    if w in s.heap.home && w !in s.marked then PushObj(s.(marked := s.marked + {w}), w) else s
  }

  function ScanWords(s: State, ws: seq<Word>, lo: nat, hi: nat): State
    decreases hi - lo
  {
    if hi <= lo || |ws| <= lo then s else ScanWords(PushContents(s, ws[lo]), ws, lo + 1, hi)
  }

  /** How far one round of GC_mark_from scans the entry: a long range is cut at 127 words. */
  function PieceEnd(e: Entry): nat {
    if e.lo + SPLIT_RANGE_WORDS <= e.hi then e.lo + SPLIT_RANGE_WORDS - 1 else e.hi
  }

  /** The stack with the piece about to be scanned taken off its top entry. */
  function WithoutPiece(stack: seq<Entry>): seq<Entry>
    requires 0 < |stack|
  {
    var e := stack[|stack| - 1];
    var rest := stack[..|stack| - 1];
    if PieceEnd(e) < e.hi then rest + [e.(lo := PieceEnd(e))] else rest
  }

  /** One round of the loop of GC_mark_from. */
  function MarkStep(s: State): State
    requires 0 < |s.stack|
  {
    var e := s.stack[|s.stack| - 1];
    ScanWords(s.(stack := WithoutPiece(s.stack), objectsMarked := true), WordsOf(s, e.src), e.lo, PieceEnd(e))
  }

  function Cost(e: Entry): nat {
    if e.lo <= PieceEnd(e) then PieceEnd(e) - e.lo else 0
  }

  /** The loop of GC_mark_from, with the remaining credit counted in words. */
  ghost function MarkFrom(s: State, credit: int): State
    decreases if credit < 0 then 0 else credit + 1, |s.stack|
  {
    if credit < 0 || |s.stack| == 0 then s
    else MarkFrom(MarkStep(s), credit - Cost(s.stack[|s.stack| - 1]))
  }

  /** The body of MARK_FROM_MARK_STACK(). */
  ghost function MarkFromStack(s: State): State {
    MarkFrom(s.(objectsMarked := true), HBLK_WORDS)
  }

  // ---------- scanning blocks for marked objects ----------

  function PushMarkedObjects(s: State, objs: seq<Obj>, i: nat): State
    decreases |objs| - i
  {
    if |objs| <= i then s
    else PushMarkedObjects(if objs[i] in s.marked then PushObj(s, objs[i]) else s, objs, i + 1)
  }

  /** GC_push_marked: nothing to do for pointer-free blocks and blocks without marks. */
  function PushMarked(s: State, b: Block): State {
    if !HasDescr(b.kind) || (forall i :: 0 <= i < |b.objs| ==> b.objs[i] !in s.marked) then s
    else PushMarkedObjects(s.(objectsMarked := true), b.objs, 0)
  }

  datatype Filter = AnyBlock | DirtyBlock | UncollectableBlock

  /** GC_block_was_dirty over the pages of the block, or the kind test of GC_push_next_marked_uncollectable. */
  predicate Matches(s: State, k: nat, f: Filter)
    requires k in s.heap.blocks
  {
    match f
    case AnyBlock => true
    case DirtyBlock => exists p :: k <= p < k + s.heap.blocks[k].nblks && p in s.grungy
    case UncollectableBlock => s.heap.blocks[k].kind == UNCOLLECTABLE
  }

  ghost predicate IsNextMatch(s: State, from: nat, f: Filter, k: nat) {
    && k in s.heap.blocks && from <= k && Matches(s, k, f)
    && forall k' :: k' in s.heap.blocks && from <= k' < k ==> !Matches(s, k', f)
  }

  /** The first used block at or after `from` that the filter lets through; 0 if there is none. */
  ghost function NextMatch(s: State, from: nat, f: Filter): nat {
    if exists k: nat :: IsNextMatch(s, from, f, k) then var k: nat :| IsNextMatch(s, from, f, k); k else 0
  }

  /** scan_ptr = GC_push_next_marked*(scan_ptr). */
  ghost function PushNext(s: State, f: Filter): State {
    var k := NextMatch(s, s.scanPtr, f);
    if k in s.heap.blocks then
      PushMarked(s, s.heap.blocks[k]).(scanPtr := k + s.heap.blocks[k].nblks)
    else
      s.(scanPtr := 0)
  }

  // ---------- roots ----------

  /** GC_push_all for each piece of static data; it aborts when the stack is full. */
  function PushStatics(s: State, k: nat): State
    decreases |s.statics| - k
  {
    if |s.statics| <= k || s.aborted then s
    else if |s.stack| < s.capacity then PushStatics(s.(stack := s.stack + [Entry(StaticArea(k), 0, |s.statics[k]|)]), k + 1)
    else s.(aborted := true)
  }

  /** GC_push_roots: static data first, then the stacks, eagerly. */
  function PushRoots(s: State): State {
    var t := PushStatics(s, 0);
    if t.aborted then t else ScanWords(t, t.stackRoots, 0, |t.stackRoots|)
  }

  function AfterRoots(s: State): State {
    if s.aborted then s
    else if s.phase == Invalid then s.(objectsMarked := true)
    else s.(objectsMarked := true, phase := RootsPushed)
  }

  // ---------- the state machine ----------

  /** alloc_mark_stack; `ok` says whether the new stack could be allocated. */
  function AllocMarkStack(s: State, n: nat, ok: bool): State {
    s.(tooSmall := false, capacity := if ok then n else s.capacity, stack := [])
  }

  function GrowIfTooSmall(s: State, ok: bool): State {
    if s.tooSmall then AllocMarkStack(s, 2 * s.capacity, ok) else s
  }

  datatype Outcome = Outcome(s: State, done: bool)

  /** Every word in a range on the mark stack is in marks, if it refers to an object. */
  ghost predicate StackMarked(s: State, marks: set<Obj>) {
    forall k, i: nat :: 0 <= k < |s.stack| && s.stack[k].lo <= i < s.stack[k].hi && i < |WordsOf(s, s.stack[k].src)| ==>
      WordsOf(s, s.stack[k].src)[i] in s.heap.home ==> WordsOf(s, s.stack[k].src)[i] in marks
  }

  /** Everything the newly marked objects refer to is in marks. */
  ghost predicate NewlyScanned(s: State, marks: set<Obj>) {
    forall o, w :: o in marks && o !in s.marked && w in FieldsOf(s.heap, o) && w in s.heap.home ==> w in marks
  }

  /** Parallel marking lost entries, and marked nothing. */
  predicate Fruitless(s: State, a: Answer) { a.overflow && a.marks == s.marked }

  function RangeOf(e: Entry): nat { if e.lo <= e.hi then e.hi - e.lo else 0 }

  /** The entries that may come of those on the mark stack when one thread takes them. */
  function Taken(stack: seq<Entry>): nat {
    if stack == [] then 0 else Taken(stack[..|stack| - 1]) + B.Taken(SHARE_WORDS, MARKERS, RangeOf(stack[|stack| - 1]))
  }

  /** How large the mark stack may become while parallel marking marks nothing. */
  function StackBound(stack: seq<Entry>): nat { |stack| + MARKERS * Taken(stack) }

  /** How GC_do_parallel_mark may come out when it starts from the mark stack of s. */
  ghost predicate ParallelMarks(s: State, a: Answer) {
    && s.marked <= a.marks <= s.heap.home.Keys
    && (!a.overflow ==> StackMarked(s, a.marks) && NewlyScanned(s, a.marks))
    && (Fruitless(s, a) ==> s.capacity < StackBound(s.stack))
  }

  ghost predicate Possible(s: State, a: Answer) {
    s.phase == RootsPushed && s.parallel ==> ParallelMarks(s, a)
  }

  /** GC_do_parallel_mark: an overflow in any marker thread makes the state MS_INVALID. */
  function ParallelPhase(s: State, a: Answer): State {
    s.(marked := a.marks, stack := [], phase := if a.overflow then Invalid else s.phase,
       tooSmall := s.tooSmall || a.overflow)
  }

  /** MS_ROOTS_PUSHED with GC_parallel. */
  function AfterParallelMark(s: State, a: Answer): Outcome {
    var u := GrowIfTooSmall(ParallelPhase(s, a), a.ok);
    if u.phase == RootsPushed then Outcome(u.(phase := Idle), true) else Outcome(u, false)
  }

  /** GC_mark_some; done says that a mark phase just finished. */
  ghost function MarkSome(s: State, a: Answer): Outcome {
    match s.phase
    case Idle => Outcome(s, false)
    case PushRescuers =>
      if s.capacity - INITIAL_MARK_STACK_SIZE / 2 <= |s.stack| - 1 then
        Outcome(MarkFromStack(s.(tooSmall := true)), false)
      else
        var t := PushNext(s, DirtyBlock);
        Outcome(if t.scanPtr == 0 then AfterRoots(PushRoots(t)) else t, false)
    case PushUncollectable =>
      if s.capacity / 4 <= |s.stack| - 1 then
        Outcome(MarkFromStack(if s.parallel then s.(tooSmall := true) else s), false)
      else
        var t := PushNext(s, UncollectableBlock);
        Outcome(if t.scanPtr == 0 then AfterRoots(PushRoots(t)) else t, false)
    case RootsPushed =>
      if s.parallel then AfterParallelMark(s, a)
      else if 0 < |s.stack| then Outcome(MarkFromStack(s), false)
      else Outcome(GrowIfTooSmall(s.(phase := Idle), a.ok), true)
    case _ =>
      if !s.objectsMarked then Outcome(s.(phase := PushUncollectable), false)
      else if 0 < |s.stack| then Outcome(MarkFromStack(s), false)
      else Outcome(HeapScan(StartRescan(s, a.ok)), false)
  }

  /** The scan of the whole heap starts over when the state is MS_INVALID. */
  function StartRescan(s: State, ok: bool): State {
    if s.scanPtr == 0 && s.phase == Invalid then GrowIfTooSmall(s, ok).(phase := PartiallyInvalid) else s
  }

  /** One step of that scan; at its end the roots are pushed, unless an overflow made the state invalid again. */
  ghost function HeapScan(s: State): State {
    var t := PushNext(s, AnyBlock);
    if t.scanPtr == 0 && t.phase == PartiallyInvalid then AfterRoots(PushRoots(t)) else t
  }

  /** GC_initiate_gc with the world stopped: fetch the dirty bits and start a scan. */
  function Initiate(s: State): State {
    s.(stopped := true, scanPtr := 0,
       grungy := if s.incremental then s.dirty else s.grungy,
       dirty := if s.incremental then {} else s.dirty,
       phase := if s.phase == Idle then PushRescuers else s.phase,
       aborted := s.aborted || (s.phase != Idle && s.phase != Invalid))
  }

  /** GC_invalidate_mark_state. */
  function InvalidateMarkState(s: State): State {
    s.(phase := Invalid, stack := [])
  }

  /** GC_clear_marks: blocks of an uncollectable kind keep their marks. */
  ghost function ClearMarks(s: State): State {
    s.(marked := (set o | o in s.marked && KeepsMarks(s, o)), objectsMarked := false, phase := Invalid, scanPtr := 0, stray := {})
  }

  predicate KeepsMarks(s: State, o: Obj) {
    o in s.heap.home && s.heap.home[o] in s.heap.blocks
    && IsUncollectable(s.heap.blocks[s.heap.home[o]].kind, s.atomicUncollectable)
  }

  // ---------- reachability ----------

  ghost predicate IsRootWord(s: State, w: Word) {
    w in s.stackRoots || exists k :: 0 <= k < |s.statics| && w in s.statics[k]
  }

  /** A path of pointers through objects the marker may follow, starting at a root. */
  ghost predicate RootPath(s: State, p: seq<Obj>) {
    && 0 < |p| && IsRootWord(s, p[0])
    && (forall i :: 0 <= i < |p| ==> p[i] in s.heap.home)
    && forall i :: 0 <= i < |p| - 1 ==> p[i + 1] in FieldsOf(s.heap, p[i])
  }

  ghost predicate Reachable(s: State, o: Obj) {
    exists p :: RootPath(s, p) && p[|p| - 1] == o
  }

  /** Objects that are reachable but not marked. */
  ghost function Missed(s: State): iset<Obj> {
    iset o | Reachable(s, o) && o !in s.marked
  }

  ghost predicate AllReachableMarked(s: State) {
    Missed(s) == iset{}
  }

  /** A word of o that is not stray refers to w. */
  ghost predicate Refers(s: State, o: Obj, w: Word) {
    exists i: nat :: i < |FieldsOf(s.heap, o)| && FieldsOf(s.heap, o)[i] == w && (o, i) !in s.stray
  }

  /** A path that does not depend on stray words. */
  ghost predicate CleanPath(s: State, p: seq<Obj>) {
    RootPath(s, p) && forall i :: 0 <= i < |p| - 1 ==> Refers(s, p[i], p[i + 1])
  }

  /** Whatever is reachable but not marked is reachable only through stray words. */
  ghost predicate OnlyStrayMissed(s: State) {
    forall p :: CleanPath(s, p) ==> p[|p| - 1] in s.marked
  }

  /** Without stray words all that is reachable is marked. */
  lemma NoStrayNoneMissed(s: State)
    requires OnlyStrayMissed(s) && s.stray == {}
    ensures AllReachableMarked(s)
  {
    forall o | Reachable(s, o) ensures o in s.marked {
      var p :| RootPath(s, p) && p[|p| - 1] == o;
      forall i | 0 <= i < |p| - 1 ensures Refers(s, p[i], p[i + 1]) {
        assert p[i + 1] in FieldsOf(s.heap, p[i]);
        var j :| 0 <= j < |FieldsOf(s.heap, p[i])| && FieldsOf(s.heap, p[i])[j] == p[i + 1];
      }
      assert CleanPath(s, p);
    }
  }
}
