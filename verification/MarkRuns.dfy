/**
Runs of the collector and the mutator together: the safety theorem for every run, and the build
configurations for which it holds.
 */
module MarkRuns {
  import opened MarkModel
  import opened MarkSafety

  datatype Event =
    | StopAndInitiate                                  // STOP_WORLD and GC_initiate_gc, in GC_stopped_mark
    | MarkSomeStep(a: Answer)                          // GC_mark_some
    | StartWorld                                       // START_WORLD, in GC_stopped_mark
    | ClearForFull                                     // GC_clear_marks, in GC_maybe_gc
    | InvalidateAndClear                               // the same after GC_invalidate_mark_state, in GC_try_to_collect_inner
    | Abandon                                          // GC_invalidate_mark_state after an abandoned collection
    | WriteField(o: Obj, i: nat, w: Word)              // the mutator stores a word into an object,
    | WriteStatic(k: nat, i: nat, w: Word)             // into static data,
    | WriteStacks(ws: seq<Word>)                       // or changes its stacks and registers
    | NewBlock(k: nat, b: Block, fields: map<Obj, seq<Word>>)
    | FreeBlock(k: nat)

  function Stored(ws: seq<Word>, i: nat, w: Word): (r: seq<Word>)
    requires i < |ws|
    ensures |r| == |ws| && forall j :: 0 <= j < |ws| ==> r[j] == if j == i then w else ws[j]
  {
    ws[..i] + [w] + ws[i + 1..]
  }

  function StoreIn(h: Heap, o: Obj, i: nat, w: Word): Heap
    requires o in h.contents && i < |h.contents[o]|
  {
    h.(contents := h.contents[o := Stored(h.contents[o], i, w)])
  }

  /** A store into an object makes the page dirty, if dirty bits are kept; the word is no longer stray. */
  function Store(s: State, o: Obj, i: nat, w: Word): State
    requires o in s.heap.contents && i < |s.heap.contents[o]|
  {
    s.(heap := StoreIn(s.heap, o, i, w), dirty := if s.incremental then s.dirty + {PageOf(s.heap, o, i)} else s.dirty,
       stray := s.stray - {(o, i)})
  }

  predicate PageIn(p: nat, k: nat, n: nat) { k <= p < k + n }

  function Pages(k: nat, n: nat): set<nat> {
    set p: nat | k <= p < k + n && PageIn(p, k, n)
  }

  function WithBlock(h: Heap, k: nat, b: Block, fields: map<Obj, seq<Word>>): Heap {
    Heap(h.blocks[k := b], h.home + (map o | o in b.objs :: k), h.contents + fields)
  }

  function WithoutBlock(h: Heap, k: nat): Heap {
    var gone := set o | o in h.home && h.home[o] == k;
    Heap(h.blocks - {k}, h.home - gone, h.contents - gone)
  }

  /** Word i of o refers to an object of the block b, and nothing makes the collector look at it again. */
  ghost predicate Stray(s: State, b: Block, o: Obj, i: nat)
    requires i < |FieldsOf(s.heap, o)|
  {
    FieldsOf(s.heap, o)[i] in b.objs && !Covered(s.stack, Object(o), i) && !Exempt(s, Object(o), i)
  }

  ghost predicate IsStray(s: State, b: Block, o: Obj, i: nat) {
    o in s.marked && i < |FieldsOf(s.heap, o)| && Stray(s, b, o, i)
  }

  /** While marking is incremental, the words of marked objects that are stray for a new block b without marks. */
  ghost function StraysFor(s: State, b: Block): set<(Obj, nat)> {
    if s.incremental && !IsUncollectable(b.kind, s.atomicUncollectable) then
      set o, i: nat | o in s.marked && i < |FieldsOf(s.heap, o)| && IsStray(s, b, o, i) :: (o, i)
    else {}
  }

  /** GC_allochblk makes the new pages dirty; a block of an uncollectable kind starts with all marks set. */
  ghost function AddBlock(s: State, k: nat, b: Block, fields: map<Obj, seq<Word>>): State {
    s.(heap := WithBlock(s.heap, k, b, fields),
       marked := if IsUncollectable(b.kind, s.atomicUncollectable) then s.marked + (set o | o in b.objs) else s.marked,
       dirty := if s.incremental then s.dirty + Pages(k, b.nblks) else s.dirty,
       stray := s.stray + StraysFor(s, b))
  }

  /** A word is stray as long as its object and the object it refers to are there. */
  predicate StillStray(h: Heap, o: Obj, i: nat) {
    i < |FieldsOf(h, o)| && FieldsOf(h, o)[i] in h.home
  }

  function DropBlock(s: State, k: nat): State {
    var h := WithoutBlock(s.heap, k);
    s.(heap := h, marked := s.marked * h.home.Keys, stray := set p | p in s.stray && StillStray(h, p.0, p.1))
  }

  ghost predicate Enabled(s: State, e: Event) {
    !s.aborted &&
    match e
    case StopAndInitiate => !s.stopped && (s.phase == Invalid || (s.phase == Idle && s.incremental))
    case MarkSomeStep(a) => Tracked(s) && Possible(s, a)
    case StartWorld => s.stopped
    case ClearForFull => !s.stopped && s.phase == Idle
    case InvalidateAndClear => !s.stopped
    case Abandon => !s.stopped && !s.incremental
    case WriteField(o, i, w) => !s.stopped && o in s.heap.home && o in s.heap.contents && i < |s.heap.contents[o]|
    case WriteStatic(k, i, w) => !s.stopped && k < |s.statics| && i < |s.statics[k]|
    case WriteStacks(ws) => !s.stopped
    case NewBlock(k, b, fields) => !s.stopped && Allocatable(s.heap, k, b, fields)
    case FreeBlock(k) => !s.stopped && k in s.heap.blocks
  }

  ghost function Apply(s: State, e: Event): State
    requires Enabled(s, e)
  {
    match e
    case StopAndInitiate => Initiate(s)
    case MarkSomeStep(a) => MarkSome(s, a).s
    case StartWorld => s.(stopped := false)
    case ClearForFull => ClearMarks(s)
    case InvalidateAndClear => ClearMarks(InvalidateMarkState(s))
    case Abandon => InvalidateMarkState(s)
    case WriteField(o, i, w) => Store(s, o, i, w)
    case WriteStatic(k, i, w) => s.(statics := s.statics[k := Stored(s.statics[k], i, w)])
    case WriteStacks(ws) => s.(stackRoots := ws)
    case NewBlock(k, b, fields) => AddBlock(s, k, b, fields)
    case FreeBlock(k) => DropBlock(s, k)
  }

  /** The marks of a block of this kind survive GC_clear_marks, but no phase scans the block. */
  predicate KindForgotten(kind: nat, atomicUncollectable: bool) {
    IsUncollectable(kind, atomicUncollectable) && kind != UNCOLLECTABLE && HasDescr(kind)
  }

  /** While marking is incremental, no marked object has a stray word for the new block b, unless b starts with marks. */
  ghost predicate NoStrays(s: State, b: Block) {
    s.incremental && !IsUncollectable(b.kind, s.atomicUncollectable) ==>
      forall o, i: nat :: o in s.marked && i < |FieldsOf(s.heap, o)| ==> !Stray(s, b, o, i)
  }

  /** What the invariant needs of the allocation of a block. */
  ghost predicate EventOk(s: State, e: Event) {
    e.NewBlock? ==> !KindForgotten(e.b.kind, s.atomicUncollectable)
  }

  ghost predicate Initial(s: State) {
    && s.heap == Heap(map[], map[], map[]) && s.marked == {} && s.stack == []
    && INITIAL_MARK_STACK_SIZE <= s.capacity && s.phase == Idle
    && !s.objectsMarked && s.dirty == {} && !s.stopped && !s.aborted && s.stray == {}
  }

  ghost predicate IsRun(states: seq<State>, events: seq<Event>) {
    && |states| == |events| + 1 && Initial(states[0])
    && forall i :: 0 <= i < |events| ==> Enabled(states[i], events[i]) && states[i + 1] == Apply(states[i], events[i])
  }

  // ---------- one step ----------

  lemma InitialInv(s: State)
    requires Initial(s)
    ensures Inv(s)
  {
  }

  lemma InitiateInv(s: State)
    requires Inv(s) && !s.stopped && !s.aborted && (s.phase == Invalid || (s.phase == Idle && s.incremental))
    ensures Inv(Initiate(s)) && !Initiate(s).aborted
  {
    var t := Initiate(s);
    assert WordsOk(t) by {
      if s.phase == Idle {
        forall src, i: nat | Live(t, src) && i < |WordsOf(t, src)| ensures WordOk(t, src, i) {
          assert WordOk(s, src, i);
        }
      }
    }
  }

  /** The invariant, but for the scan pointer: what GC_clear_marks needs. */
  ghost predicate ClearableInv(s: State) {
    Sane(s) && KindsRescanned(s) && (!s.objectsMarked ==> OnlyKeptMarked(s)) && s.stack == []
  }

  lemma ClearInv(s: State)
    requires ClearableInv(s)
    ensures Inv(ClearMarks(s))
  {
    var t := ClearMarks(s);
    assert forall o :: o in t.marked ==> KeepsMarks(s, o);
    assert OnlyKeptMarked(t) && Sane(t);
    assert WordsOk(t);
  }

  lemma IdleClearable(s: State)
    requires Inv(s) && s.phase == Idle
    ensures ClearableInv(s)
  {
  }

  lemma InvalidateInv(s: State)
    requires Inv(s) && !s.stopped
    ensures ClearableInv(InvalidateMarkState(s)) && (!s.incremental ==> Inv(InvalidateMarkState(s)))
  {
    var t := InvalidateMarkState(s);
    assert Sane(t);
  }

  lemma StoreHeap(h: Heap, o: Obj, i: nat, w: Word)
    requires HeapWf(h) && o in h.home && i < |h.contents[o]|
    ensures HeapWf(StoreIn(h, o, i, w))
  {
    var h' := StoreIn(h, o, i, w);
    forall o', j: nat | o' in h'.home && j < |h'.contents[o']|
      ensures PageOf(h', o', j) < h'.home[o'] + h'.blocks[h'.home[o']].nblks
    {
      assert PageOf(h, o', j) == PageOf(h', o', j) && j < |h.contents[o']|;
    }
  }

  lemma StoreWords(s: State, o: Obj, i: nat, w: Word, o': Obj, j: nat)
    requires WordsOk(s) && s.incremental && o in s.heap.home && o in s.heap.contents && i < |s.heap.contents[o]|
    requires var t := Store(s, o, i, w); o' in t.marked && j < |FieldsOf(t.heap, o')|
    ensures WordOk(Store(s, o, i, w), Object(o'), j)
  {
    var t := Store(s, o, i, w);
    assert |FieldsOf(t.heap, o')| == |FieldsOf(s.heap, o')| && WordsOf(s, Object(o')) == FieldsOf(s.heap, o');
    assert WordOk(s, Object(o'), j);
    assert PageOf(t.heap, o', j) == PageOf(s.heap, o', j);
  }

  lemma WriteFieldInv(s: State, o: Obj, i: nat, w: Word)
    requires Inv(s) && !s.stopped && o in s.heap.home && i < |s.heap.contents[o]|
    ensures Inv(Store(s, o, i, w))
    ensures var t := Store(s, o, i, w);
      && (forall x, j: nat :: x in s.heap.contents && j < |s.heap.contents[x]| ==>
            x in t.heap.contents && j < |t.heap.contents[x]| && t.heap.contents[x][j] == if x == o && j == i then w else s.heap.contents[x][j])
      && (s.incremental ==> PageOf(s.heap, o, i) in t.dirty) && s.dirty <= t.dirty && (o, i) !in t.stray
  {
    var t := Store(s, o, i, w);
    StoreHeap(s.heap, o, i, w);
    if Tracked(s) {
      forall src, j: nat | Live(t, src) && j < |WordsOf(t, src)| ensures WordOk(t, src, j) {
        StoreWords(s, o, i, w, src.o, j);
      }
    }
  }

  /** The block lies in memory that is not in use. */
  ghost predicate Allocatable(h: Heap, k: nat, b: Block, fields: map<Obj, seq<Word>>) {
    && k !in h.blocks && fields.Keys == (set o | o in b.objs)
    && (forall o :: o in b.objs ==> o !in h.home)
    && HeapWf(WithBlock(h, k, b, fields))
  }

  /** Allocation leaves the other objects as they were. */
  lemma NewBlockHeap(h: Heap, k: nat, b: Block, fields: map<Obj, seq<Word>>, o: Obj)
    requires HeapWf(h) && Allocatable(h, k, b, fields)
    ensures var h' := WithBlock(h, k, b, fields);
      && (o in h.home ==>
            o in h'.home && h'.home[o] == h.home[o] && h'.contents[o] == h.contents[o]
            && h'.blocks[h'.home[o]] == h.blocks[h.home[o]] && FieldsOf(h', o) == FieldsOf(h, o))
      && (o in h'.home && o !in h.home ==> o in b.objs && h'.home[o] == k)
  {
    if o in h.home {
      assert o !in b.objs && o !in fields;
    }
  }

  lemma OldWords(s: State, t: State, o: Obj, i: nat)
    requires WordsOk(s) && o in s.marked && i < |FieldsOf(s.heap, o)|
    requires s.marked <= t.marked && s.dirty <= t.dirty && s.stray <= t.stray && t.stack == s.stack && t.phase == s.phase
    requires t.scanPtr == s.scanPtr && t.grungy == s.grungy
    requires FieldsOf(t.heap, o) == FieldsOf(s.heap, o) && Scanned(t.heap, o) && t.heap.home[o] == s.heap.home[o]
    requires t.heap.blocks[t.heap.home[o]] == s.heap.blocks[s.heap.home[o]]
    requires FieldsOf(s.heap, o)[i] in t.heap.home ==> FieldsOf(s.heap, o)[i] in s.heap.home
    ensures WordOk(t, Object(o), i)
  {
    assert WordsOf(s, Object(o)) == FieldsOf(s.heap, o);
    assert WordOk(s, Object(o), i);
    assert PageOf(t.heap, o, i) == PageOf(s.heap, o, i);
  }

  lemma StrayRecorded(s: State, b: Block, o: Obj, i: nat)
    requires s.incremental && !IsUncollectable(b.kind, s.atomicUncollectable)
    requires o in s.marked && i < |FieldsOf(s.heap, o)| && Stray(s, b, o, i)
    ensures (o, i) in StraysFor(s, b)
  {
    assert IsStray(s, b, o, i);
  }

  /** t differs from s in other objects, and in more marks, dirty pages and stray words. */
  ghost predicate ObjectKept(s: State, t: State, o: Obj) {
    && FieldsOf(t.heap, o) == FieldsOf(s.heap, o) && Scanned(t.heap, o) && Scanned(s.heap, o)
    && t.heap.home[o] == s.heap.home[o] && t.heap.blocks[t.heap.home[o]] == s.heap.blocks[s.heap.home[o]]
    && s.dirty <= t.dirty && s.stray <= t.stray && t.stack == s.stack && t.phase == s.phase
    && t.scanPtr == s.scanPtr && t.grungy == s.grungy
  }

  /** What made up for a word still does. */
  lemma StillOk(s: State, t: State, o: Obj, i: nat)
    requires ObjectKept(s, t, o) && i < |FieldsOf(s.heap, o)|
    requires FieldsOf(s.heap, o)[i] in t.marked || Covered(s.stack, Object(o), i) || Exempt(s, Object(o), i) || (o, i) in t.stray
    ensures i < |WordsOf(t, Object(o))| && WordOk(t, Object(o), i)
  {
    assert WordsOf(t, Object(o)) == FieldsOf(s.heap, o) && PageOf(t.heap, o, i) == PageOf(s.heap, o, i);
  }

  lemma NewBlockKeeps(s: State, k: nat, b: Block, fields: map<Obj, seq<Word>>, o: Obj)
    requires HeapWf(s.heap) && Allocatable(s.heap, k, b, fields) && Scanned(s.heap, o)
    ensures ObjectKept(s, AddBlock(s, k, b, fields), o)
  {
    NewBlockHeap(s.heap, k, b, fields, o);
    hide StraysFor, HeapWf, WithBlock, Allocatable, Pages;
  }

  /** A word that refers to the new block. */
  lemma NewReference(s: State, k: nat, b: Block, fields: map<Obj, seq<Word>>, o: Obj, i: nat)
    requires HeapWf(s.heap) && s.marked <= s.heap.home.Keys && s.incremental
    requires Allocatable(s.heap, k, b, fields)
    requires o in s.marked && i < |FieldsOf(s.heap, o)| && FieldsOf(s.heap, o)[i] in b.objs
    ensures i < |WordsOf(AddBlock(s, k, b, fields), Object(o))| && WordOk(AddBlock(s, k, b, fields), Object(o), i)
  {
    hide HeapWf, Allocatable, StraysFor, WithBlock, ObjectKept, Pages;
    if !IsUncollectable(b.kind, s.atomicUncollectable) && Stray(s, b, o, i) { StrayRecorded(s, b, o, i); }
    NewBlockKeeps(s, k, b, fields, o);
    StillOk(s, AddBlock(s, k, b, fields), o, i);
  }

  lemma OldBlockWords(s: State, k: nat, b: Block, fields: map<Obj, seq<Word>>, o: Obj, i: nat)
    requires HeapWf(s.heap) && s.marked <= s.heap.home.Keys && WordsOk(s) && s.incremental
    requires Allocatable(s.heap, k, b, fields)
    requires o in s.marked && i < |FieldsOf(s.heap, o)|
    ensures WordOk(AddBlock(s, k, b, fields), Object(o), i)
  {
    var w := FieldsOf(s.heap, o)[i];
    if w in b.objs {
      NewReference(s, k, b, fields, o, i);
    } else {
      NewBlockHeap(s.heap, k, b, fields, o);
      NewBlockHeap(s.heap, k, b, fields, w);
      hide StraysFor, Allocatable;
      OldWords(s, AddBlock(s, k, b, fields), o, i);
    }
  }

  /** The words of a new block lie on its new pages. */
  lemma NewPages(h: Heap, k: nat, b: Block, o: Obj, i: nat)
    requires HeapWf(h) && k in h.blocks && h.blocks[k] == b && o in h.home && h.home[o] == k && i < |h.contents[o]|
    ensures PageOf(h, o, i) in Pages(k, b.nblks)
  {
    assert PageIn(PageOf(h, o, i), k, b.nblks);
  }

  lemma NewBlockWords(s: State, k: nat, b: Block, fields: map<Obj, seq<Word>>, o: Obj, i: nat)
    requires HeapWf(s.heap) && s.marked <= s.heap.home.Keys && WordsOk(s)
    requires s.incremental && Allocatable(s.heap, k, b, fields)
    requires var t := AddBlock(s, k, b, fields); o in t.marked && i < |FieldsOf(t.heap, o)|
    ensures WordOk(AddBlock(s, k, b, fields), Object(o), i)
  {
    NewBlockHeap(s.heap, k, b, fields, o);
    if o in s.marked {
      OldBlockWords(s, k, b, fields, o, i);
    } else {
      NewPages(WithBlock(s.heap, k, b, fields), k, b, o, i);
    }
  }

  lemma KindsGrow(s: State, t: State, k: nat, b: Block)
    requires KindsRescanned(s) && k !in s.heap.blocks && t.heap.blocks == s.heap.blocks[k := b]
    requires t.atomicUncollectable == s.atomicUncollectable
    ensures KindsRescanned(t) <==> !KindForgotten(b.kind, s.atomicUncollectable)
  {
    assert t.heap.blocks[k] == b;
  }

  /** What a new block leaves as it was. */
  lemma NewBlockFrame(s: State, k: nat, b: Block, fields: map<Obj, seq<Word>>)
    requires HeapWf(s.heap) && Allocatable(s.heap, k, b, fields)
    ensures var t := AddBlock(s, k, b, fields);
      && k !in s.heap.blocks && t.heap.blocks == s.heap.blocks[k := b] && HeapWf(t.heap) && s.heap.home.Keys <= t.heap.home.Keys
      && (forall o :: o in b.objs ==> o in t.heap.home && t.heap.home[o] == k)
      && (forall o :: o in s.heap.home ==> t.heap.home[o] == s.heap.home[o] && s.heap.home[o] in s.heap.blocks)
  {
  }

  lemma NewBlockAlways(s: State, k: nat, b: Block, fields: map<Obj, seq<Word>>)
    requires Always(s) && !s.stopped && Allocatable(s.heap, k, b, fields)
    ensures Always(AddBlock(s, k, b, fields)) <==> !KindForgotten(b.kind, s.atomicUncollectable)
  {
    var t := AddBlock(s, k, b, fields);
    NewBlockFrame(s, k, b, fields);
    KindsGrow(s, t, k, b);
    hide WithBlock, Allocatable, HeapWf, KindsRescanned, KindForgotten, Pages;
    assert Sane(t);
    assert RootsOk(t);
    assert !s.objectsMarked ==> OnlyKeptMarked(t);
  }

  lemma NewBlockWordsOk(s: State, k: nat, b: Block, fields: map<Obj, seq<Word>>)
    requires Inv(s) && !s.stopped && Allocatable(s.heap, k, b, fields) && s.incremental
    ensures WordsOk(AddBlock(s, k, b, fields))
  {
    var t := AddBlock(s, k, b, fields);
    hide StraysFor;
    forall src, i: nat | Live(t, src) && i < |WordsOf(t, src)| ensures WordOk(t, src, i) {
      assert src.Object?;
      NewBlockWords(s, k, b, fields, src.o, i);
    }
  }

  lemma BlocksApart(h: Heap, c: nat, k: nat)
    requires HeapWf(h) && c in h.blocks && k in h.blocks && c != k
    ensures c + h.blocks[c].nblks <= k || k + h.blocks[k].nblks <= c
  {
  }

  /** No page of the new block belongs to an object that was there before. */
  lemma OldPage(s: State, k: nat, b: Block, fields: map<Obj, seq<Word>>, o: Obj, i: nat)
    requires HeapWf(s.heap) && Allocatable(s.heap, k, b, fields) && o in s.heap.home && i < |s.heap.contents[o]|
    ensures PageOf(s.heap, o, i) !in Pages(k, b.nblks)
  {
    NewBlockFrame(s, k, b, fields);
    PageInBlock(s.heap, o, i);
    BlocksApart(AddBlock(s, k, b, fields).heap, s.heap.home[o], k);
    hide HeapWf, WithBlock, Allocatable, PageOf;
  }

  lemma StrayNotOk(s: State, t: State, b: Block, o: Obj, i: nat)
    requires i < |FieldsOf(s.heap, o)| && Stray(s, b, o, i) && FieldsOf(t.heap, o) == FieldsOf(s.heap, o)
    requires o in s.heap.home && o in t.heap.home && t.heap.home[o] == s.heap.home[o]
    requires s.heap.home[o] in s.heap.blocks && t.heap.home[o] in t.heap.blocks
    requires t.heap.blocks[t.heap.home[o]] == s.heap.blocks[s.heap.home[o]]
    requires t.stack == s.stack && t.phase == s.phase && t.scanPtr == s.scanPtr && t.grungy == s.grungy && t.stray == s.stray
    requires PageOf(s.heap, o, i) in t.dirty ==> PageOf(s.heap, o, i) in s.dirty
    requires FieldsOf(s.heap, o)[i] in t.heap.home && FieldsOf(s.heap, o)[i] !in t.marked && o in t.marked
    ensures !WordsOk(t)
  {
    assert WordsOf(t, Object(o)) == FieldsOf(s.heap, o) && PageOf(t.heap, o, i) == PageOf(s.heap, o, i);
    assert !Covered(t.stack, Object(o), i) && !Exempt(t, Object(o), i);
    assert Live(t, Object(o)) && !WordOk(t, Object(o), i);
  }

  /** A stray word breaks the invariant, if it is not exempt as such. */
  lemma StrayBreaks(s: State, k: nat, b: Block, fields: map<Obj, seq<Word>>, o: Obj, i: nat)
    requires HeapWf(s.heap) && s.marked <= s.heap.home.Keys && Allocatable(s.heap, k, b, fields)
    requires !IsUncollectable(b.kind, s.atomicUncollectable)
    requires o in s.marked && i < |FieldsOf(s.heap, o)| && Stray(s, b, o, i)
    ensures !WordsOk(AddBlock(s, k, b, fields).(stray := s.stray))
  {
    var t := AddBlock(s, k, b, fields).(stray := s.stray);
    hide StraysFor;
    NewBlockHeap(s.heap, k, b, fields, o);
    NewBlockFrame(s, k, b, fields);
    OldPage(s, k, b, fields, o, i);
    assert FieldsOf(s.heap, o)[i] in b.objs;
    StrayNotOk(s, t, b, o, i);
  }

  lemma NoneStray(s: State, b: Block)
    requires NoStrays(s, b)
    ensures StraysFor(s, b) == {}
  {
  }

  lemma StrayIsHistory(s: State, stray: set<(Obj, nat)>)
    ensures Always(s.(stray := stray)) <==> Always(s)
  {
  }

  /** Allocation keeps the invariant exactly if the kind of the block is scanned again after its marks were kept. */
  lemma NewBlockInv(s: State, k: nat, b: Block, fields: map<Obj, seq<Word>>)
    requires Inv(s) && !s.stopped && Allocatable(s.heap, k, b, fields)
    ensures Inv(AddBlock(s, k, b, fields)) <==> !KindForgotten(b.kind, s.atomicUncollectable)
  {
    NewBlockAlways(s, k, b, fields);
    if s.incremental { NewBlockWordsOk(s, k, b, fields); }
  }

  /**
   * It does so without any word that becomes stray, exactly if no word that the collector will not look at again
   * happens to refer to the new block.
   */
  lemma NewBlockInvIff(s: State, k: nat, b: Block, fields: map<Obj, seq<Word>>)
    requires Inv(s) && !s.stopped && Allocatable(s.heap, k, b, fields)
    ensures Inv(AddBlock(s, k, b, fields).(stray := s.stray)) <==> !KindForgotten(b.kind, s.atomicUncollectable) && NoStrays(s, b)
  {
    NewBlockAlways(s, k, b, fields);
    StrayIsHistory(AddBlock(s, k, b, fields), s.stray);
    hide StraysFor, Always, WithBlock, Allocatable;
    if NoStrays(s, b) {
      NoneStray(s, b);
      NewBlockInv(s, k, b, fields);
      assert AddBlock(s, k, b, fields).(stray := s.stray) == AddBlock(s, k, b, fields);
    } else {
      var o, i: nat :| o in s.marked && i < |FieldsOf(s.heap, o)| && Stray(s, b, o, i);
      assert HeapWf(s.heap) && s.marked <= s.heap.home.Keys by { InvSane(s); }
      StrayBreaks(s, k, b, fields, o, i);
    }
  }

  lemma InvSane(s: State)
    requires Inv(s)
    ensures HeapWf(s.heap) && s.marked <= s.heap.home.Keys
  {
  }

  /** What is left when block k is freed. */
  lemma WithoutBlockIs(h: Heap, k: nat)
    ensures var h' := WithoutBlock(h, k);
      && h'.blocks == h.blocks - {k} && (forall o :: o in h'.home <==> o in h.home && h.home[o] != k)
      && (forall o :: o in h'.home ==> h'.home[o] == h.home[o])
      && (forall o :: o in h'.home && o in h.contents ==> o in h'.contents && h'.contents[o] == h.contents[o])
  {
  }

  lemma FreeBlockPages(h: Heap, k: nat)
    requires HeapWf(h) && k in h.blocks
    ensures var h' := WithoutBlock(h, k);
      forall o, i: nat :: o in h'.home && i < |h'.contents[o]| ==>
        h'.home[o] in h'.blocks && PageOf(h', o, i) < h'.home[o] + h'.blocks[h'.home[o]].nblks
  {
    var h' := WithoutBlock(h, k);
    WithoutBlockIs(h, k);
    hide WithoutBlock;
    forall o, i: nat | o in h'.home && i < |h'.contents[o]|
      ensures h'.home[o] in h'.blocks && PageOf(h', o, i) < h'.home[o] + h'.blocks[h'.home[o]].nblks
    {
      assert PageOf(h, o, i) == PageOf(h', o, i) && i < |h.contents[o]|;
    }
  }

  lemma FreeBlockHeap(h: Heap, k: nat)
    requires HeapWf(h) && k in h.blocks
    ensures HeapWf(WithoutBlock(h, k))
  {
    hide WithoutBlock, PageOf;
    FreeBlockPages(h, k);
    WithoutBlockIs(h, k);
  }

  lemma FreeBlockInv(s: State, k: nat)
    requires Inv(s) && !s.stopped && k in s.heap.blocks
    ensures Inv(DropBlock(s, k))
  {
    var t := DropBlock(s, k);
    FreeBlockHeap(s.heap, k);
    if Tracked(s) {
      forall src, i: nat | Live(t, src) && i < |WordsOf(t, src)| ensures WordOk(t, src, i) {
        assert src.Object?;
        FreeBlockWords(s, k, src.o, i);
      }
    }
  }

  lemma FreeBlockWords(s: State, k: nat, o: Obj, i: nat)
    requires WordsOk(s) && k in s.heap.blocks
    requires var t := DropBlock(s, k); o in t.marked && i < |FieldsOf(t.heap, o)|
    ensures WordOk(DropBlock(s, k), Object(o), i)
  {
    var t := DropBlock(s, k);
    assert FieldsOf(t.heap, o) == FieldsOf(s.heap, o) == WordsOf(s, Object(o));
    assert WordOk(s, Object(o), i);
    assert PageOf(t.heap, o, i) == PageOf(s.heap, o, i);
  }

  lemma UnlivePhaseInv(s: State, t: State)
    requires Inv(s) && !s.stopped
    requires t == s.(statics := t.statics, stackRoots := t.stackRoots)
    ensures Inv(t)
  {
    if Tracked(s) {
      forall src, i: nat | Live(t, src) && i < |WordsOf(t, src)| ensures WordOk(t, src, i) {
        assert src.Object? && WordsOf(s, src) == WordsOf(t, src);
        assert WordOk(s, src, i);
      }
    }
  }

  lemma StartWorldInv(s: State)
    requires Inv(s) && s.stopped
    ensures Inv(s.(stopped := false))
  {
    var t := s.(stopped := false);
    if Tracked(t) {
      forall src, i: nat | Live(t, src) && i < |WordsOf(t, src)| ensures WordOk(t, src, i) {
        assert src.Object? && Live(s, src);
        assert WordOk(s, src, i);
      }
    }
  }

  /** Every step of collector or mutator keeps the invariant, if it is no allocation of a kind that is forgotten. */
  lemma StepInv(s: State, e: Event)
    requires Inv(s) && Enabled(s, e) && EventOk(s, e)
    ensures Apply(s, e).aborted || Inv(Apply(s, e))
    ensures Apply(s, e).atomicUncollectable == s.atomicUncollectable
  {
    hide Inv, ClearableInv, StraysFor, Possible;
    match e
    case StopAndInitiate => InitiateInv(s);
    case MarkSomeStep(a) => MarkSomeInv(s, a);
    case StartWorld => StartWorldInv(s);
    case ClearForFull => IdleClearable(s); ClearInv(s);
    case InvalidateAndClear => InvalidateInv(s); ClearInv(InvalidateMarkState(s));
    case Abandon => InvalidateInv(s);
    case WriteField(o, i, w) => WriteFieldInv(s, o, i, w);
    case WriteStatic(k, i, w) => UnlivePhaseInv(s, Apply(s, e));
    case WriteStacks(ws) => UnlivePhaseInv(s, Apply(s, e));
    case NewBlock(k, b, fields) => NewBlockInv(s, k, b, fields);
    case FreeBlock(k) => FreeBlockInv(s, k);
  }

  // ---------- whole runs ----------

  ghost predicate RunOk(states: seq<State>, events: seq<Event>) {
    |states| == |events| + 1 && forall i :: 0 <= i < |events| ==> EventOk(states[i], events[i])
  }

  lemma {:induction false} RunInv(states: seq<State>, events: seq<Event>, n: nat)
    requires IsRun(states, events) && RunOk(states, events) && n <= |events|
    ensures states[n].atomicUncollectable == states[0].atomicUncollectable
    ensures states[n].aborted || Inv(states[n])
  {
    if n == 0 {
      InitialInv(states[0]);
    } else {
      RunInv(states, events, n - 1);
      assert states[n] == Apply(states[n - 1], events[n - 1]);
      StepInv(states[n - 1], events[n - 1]);
    }
  }

  /** Step n of the run is the GC_mark_some call with which GC_stopped_mark succeeds. */
  ghost predicate FinishesAt(states: seq<State>, events: seq<Event>, n: nat) {
    && n < |events| < |states| && states[n].stopped && events[n].MarkSomeStep?
    && MarkSome(states[n], events[n].a).done
  }

  /**
   * Whenever GC_stopped_mark succeeds, whatever happened before, everything is marked that is reachable without
   * the words that have become stray since the marks were last cleared.
   */
  lemma StoppedMarkSafe(states: seq<State>, events: seq<Event>, n: nat)
    requires IsRun(states, events) && RunOk(states, events) && FinishesAt(states, events, n)
    ensures OnlyStrayMissed(states[n + 1])
    ensures states[n + 1].stray == {} ==> AllReachableMarked(states[n + 1])
  {
    RunInv(states, events, n);
    MarkSomeComplete(states[n], events[n].a);
  }

  lemma StepStray(s: State, e: Event)
    requires Enabled(s, e) && !s.incremental && s.stray == {} && (s.aborted || Inv(s))
    ensures Apply(s, e).stray == {} && (Apply(s, e).aborted || !Apply(s, e).incremental)
  {
    if e.MarkSomeStep? { MarkSomeInv(s, e.a); }
    hide MarkSome, Inv;
  }

  /** Without incremental marking there are no stray words. */
  lemma {:induction false} NoneStrayUnlessIncremental(states: seq<State>, events: seq<Event>, n: nat)
    requires IsRun(states, events) && RunOk(states, events) && n <= |events| && !states[0].incremental
    ensures states[n].stray == {} && (states[n].aborted || !states[n].incremental)
  {
    if n != 0 {
      NoneStrayUnlessIncremental(states, events, n - 1);
      RunInv(states, events, n - 1);
      hide Inv, RunOk, Apply;
      StepStray(states[n - 1], events[n - 1]);
    }
  }
}
