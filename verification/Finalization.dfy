/** Finalization (libs/gc/finalize.c), with the mark stack of the collector and the two hash tables. */
module Finalization {
  import M = MarkModel
  import opened MarkSafety
  import opened MarkTermination
  import opened FinalizeModel
  import C = CollectorState
  import T = ChainTables
  import X = MarkExact

  type Obj = M.Obj

  // ---------- marking from one object ----------

  /** The mark procedure of r. */
  method RunMarkProc(gc: C.Collector, r: Registered)
    modifies gc
    ensures gc.Abs() == RunProc(old(gc.Abs()), r)
  {
    match r.proc {
      case NormalProc => gc.PushObj(r.o);
      case UnreachableProc => gc.PushObj(r.o);
      case IgnoreSelfProc =>
        var ws := Others(M.FieldsOf(gc.heap, r.o), r.o);
        gc.ScanWords(ws, 0, |ws|);
      case NullProc =>
    }
  }

  /** The first loop of GC_MARK_FO empties the mark stack. */
  method Drain(gc: C.Collector, r: Registered, ghost s0: M.State)
    requires Quiet(s0) && Draining(s0, r, gc.Abs())
    modifies gc
    ensures Draining(s0, r, gc.Abs()) && gc.stack == [] && gc.Abs() == Drained(old(gc.Abs()))
  {
    hide Quiet, Draining, M.MarkFromStack;
    while |gc.stack| > 0
      invariant Draining(s0, r, gc.Abs()) && Drained(gc.Abs()) == Drained(old(gc.Abs()))
      decreases Unmarked(gc.Abs()), Work(gc.stack)
    {
      DrainStep(s0, r, gc.Abs());
      DrainedNext(s0, r, gc.Abs());
      hide Drained;
      gc.MarkFromMarkStack();
    }
  }

  /** The second loop of GC_MARK_FO marks until the mark phase is complete; memory may or may not allow a larger stack. */
  method Rescue(gc: C.Collector, r: Registered, ghost s0: M.State) returns (ghost oks: seq<M.Answer>)
    requires Quiet(s0) && Rescuing(s0, r, gc.Abs()) && |gc.statics| <= M.INITIAL_MARK_STACK_SIZE / 2
    modifies gc
    ensures Finished(s0, s0.marked + {r.o}, gc.Abs()) && gc.Abs() == Rescued(old(gc.Abs()), oks)
  {
    oks := [];
    hide Quiet, Finished, IsLeast;
    while true
      invariant Rescuing(s0, r, gc.Abs()) && gc.statics == old(gc.statics) && gc.Abs() == Rescued(old(gc.Abs()), oks)
      decreases MeasureOf(gc.Abs()).unmarked, MeasureOf(gc.Abs()).mixed, MeasureOf(gc.Abs()).deficit, MeasureOf(gc.Abs()).rank,
        MeasureOf(gc.Abs()).ahead, MeasureOf(gc.Abs()).work
    {
      var a := gc.AskForAnswer();
      RescueStep(s0, r, gc.Abs(), a);
      RescueWf(s0, r, gc.Abs());
      ghost var s := gc.Abs();
      RescuedNext(old(gc.Abs()), oks, a);
      hide Rescuing, MeasureOf, Rescued, M.MarkSome;
      var done := gc.MarkSome(a);
      oks := oks + [a];
      if done { return; }
      LowerOrder(MeasureOf(gc.Abs()), MeasureOf(s));
      RescueStatics(s0, r, s, gc.Abs());
    }
  }

  lemma RescueWf(s0: M.State, r: Registered, s: M.State)
    requires Rescuing(s0, r, s)
    ensures M.HeapWf(s.heap) && !s.aborted
  {
  }

  lemma RescueStatics(s0: M.State, r: Registered, s: M.State, t: M.State)
    requires Rescuing(s0, r, s) && Rescuing(s0, r, t)
    ensures s.statics == t.statics
  {
  }

  /**
   * GC_MARK_FO: mark from the object of r, but not, unless the mark stack overflows, the object itself.
   * Whether it overflows is a function of the state before.
   */
  method MarkFo(gc: C.Collector, r: Registered) returns (overflowed: bool, ghost oks: seq<M.Answer>)
    requires Quiet(gc.Abs()) && r.o in gc.heap.home && |gc.statics| <= M.INITIAL_MARK_STACK_SIZE / 2
    modifies gc
    ensures overflowed <==> Overflows(old(gc.Abs()), r)
    ensures gc.Abs() == AfterFo(old(gc.Abs()), r, oks)
    ensures Finished(old(gc.Abs()), old(gc.marked) + (if overflowed then {r.o} else Starts(gc.heap, r)), gc.Abs())
  {
    ghost var s0 := gc.Abs();
    DrainStarts(s0, r);
    RunMarkProc(gc, r);
    hide Quiet, Rescuing, Finished, RunProc, Drained, Rescued, Draining, Starts, Overflows, AfterFo;
    Drain(gc, r, s0);
    ghost var d := gc.Abs();
    DrainingPhase(s0, r, d);
    oks := [];
    FoParts(s0, r, d);
    if gc.phase == M.Idle {
      DrainEnds(s0, r, d);
      return false, oks;
    }
    RescueStarts(s0, r, d);
    gc.marked := gc.marked + {r.o};
    oks := Rescue(gc, r, s0);
    return true, oks;
  }

  lemma FoParts(s: M.State, r: Registered, d: M.State)
    requires d == Drained(RunProc(s, r)) && (d.phase == M.Idle || d.phase == M.Invalid)
    ensures Overflows(s, r) <==> d.phase == M.Invalid
    ensures forall oks :: AfterFo(s, r, oks) == if d.phase == M.Idle then d else Rescued(d.(marked := d.marked + {r.o}), oks)
  {
    hide Drained, RunProc, Rescued;
  }

  lemma DrainingPhase(s0: M.State, r: Registered, s: M.State)
    requires Draining(s0, r, s)
    ensures s.phase == M.Idle || s.phase == M.Invalid
  {
  }

  // ---------- the tables ----------

  /** A registered finalizer: function, client data, mark procedure, object size. */
  datatype Finalizer = Finalizer(fn: nat, data: nat, proc: Proc, size: nat)

  type Alignment = n: nat | 0 < n witness 1

  const ALIGNMENT: Alignment

  datatype LinkResult = BadArgument | NoTable | Done(r: T.Result)

  datatype Unlinked = Removed | NotRegistered | NullTable

  datatype Option = None | Some(value: Finalizer)

  /** The finalizer table after a call of GC_register_finalizer_inner. */
  ghost function AfterRequest(m: map<nat, Finalizer>, o: Obj, f: Option, inHeap: bool, a: T.Alloc<Finalizer>): map<nat, Finalizer> {
    match f
    case None => m - {o}
    case Some(v) => if o !in m && !inHeap then m else T.AfterRegister(m, o, v, a)
  }

  ghost function Registrations(es: seq<T.Entry<Finalizer>>): (rs: seq<Registered>)
    ensures |rs| == |es| && forall j: nat :: j < |es| ==> rs[j] == Registered(es[j].key, es[j].value.proc)
  {
    seq(|es|, j requires 0 <= j < |es| => Registered(es[j].key, es[j].value.proc))
  }

  /** es are the registered objects, with their mark procedures, in some order. */
  ghost predicate FromTable(es: seq<Registered>, m: map<nat, Finalizer>) {
    && (forall r :: r in es ==> r.o in m && m[r.o].proc == r.proc)
    && (forall o :: o in m ==> Registered(o, m[o].proc) in es)
  }

  lemma RegistrationsAre(es: seq<T.Entry<Finalizer>>, m: map<nat, Finalizer>)
    requires T.Listing(es, m)
    ensures FromTable(Registrations(es), m)
  {
    var rs := Registrations(es);
    forall r | r in rs ensures r.o in m && m[r.o].proc == r.proc {
      var j :| 0 <= j < |rs| && rs[j] == r;
      assert es[j] in es;
    }
    forall o | o in m ensures Registered(o, m[o].proc) in rs {
      var j :| 0 <= j < |es| && es[j] == T.Entry(o, m[o]);
      assert rs[j] == Registered(o, m[o].proc);
    }
  }

  lemma ProgressIs(s0: M.State, es: seq<Registered>, answers: seq<seq<M.Answer>>, k: nat, s: M.State)
    requires Progress(s0, es, answers, k, s)
    ensures Quiet(s) && SameWorld(s0, s)
  {
  }

  /** The object is not marked. */
  function Outside(marks: set<Obj>): (nat, Finalizer) -> bool { (o, f) => o !in marks }

  /** The link is to an object that is not marked. */
  function ToOutside(marks: set<Obj>): (nat, Obj) -> bool { (l, o) => o !in marks }

  /** The link lies in an object that is not marked. */
  function FromOutside(base: nat -> nat, marks: set<Obj>): (nat, Obj) -> bool { (l: nat, o: Obj) => base(l) != 0 && base(l) !in marks }

  function Reversed<V>(l: seq<V>): (r: seq<V>)
    ensures |r| == |l| && forall j :: 0 <= j < |l| ==> r[j] == l[|l| - 1 - j]
  {
    if l == [] then [] else Reversed(l[1..]) + [l[0]]
  }

  function KeysOf(es: seq<T.Entry<Finalizer>>): set<Obj> { set e | e in es :: e.key }

  /** GC_finalize enqueues exactly these objects of the table m. */
  ghost predicate EnqueuesExactly(s0: M.State, es: seq<Registered>, m: map<nat, Finalizer>, queued: seq<T.Entry<Finalizer>>) {
    forall o :: o in m ==> (o in KeysOf(queued) <==> Deserves(s0, es, Registered(o, m[o].proc)))
  }

  lemma Enqueued(m: map<nat, Finalizer>, marks: set<Obj>, queued: seq<T.Entry<Finalizer>>, m': map<nat, Finalizer>, o: Obj)
    requires T.Swept(m, Outside(marks), queued, m') && (forall o :: o in m' ==> o in marks) && o in m
    ensures o in KeysOf(queued) <==> o !in marks
  {
    if o in m' {
      assert forall e :: e in queued ==> e.key != o;
    } else {
      assert T.Entry(o, m[o]) in queued;
    }
  }

  lemma EnqueuesWhatIsLeft(s0: M.State, es: seq<Registered>, mid: M.State,
                           m: map<nat, Finalizer>, queued: seq<T.Entry<Finalizer>>, m': map<nat, Finalizer>)
    requires FromTable(es, m) && T.Swept(m, Outside(mid.marked), queued, m') && forall o :: o in m' ==> o in mid.marked
    ensures EnqueuesExactly(s0, es, m, queued) <==> QueuesExactly(s0, es, mid)
  {
    forall o | o in m ensures o in KeysOf(queued) <==> o !in mid.marked { Enqueued(m, mid.marked, queued, m', o); }
    hide KeysOf, Deserves;
    assert forall o :: o in m ==> Registered(o, m[o].proc) in es;
    assert forall r :: r in es ==> r.o in m && r == Registered(r.o, m[r.o].proc);
  }

  /**
   * The queue receives exactly the unmarked registered objects that no chain of one or more pointers
   * from an unmarked registered object leads to, if and only if the mark stack overflows at most while
   * marking from objects that such a chain leads to; and it does so whenever the mark stack has more
   * entries than there are unmarked objects.
   */
  lemma QueueExactUnlessOverflow(s0: M.State, es: seq<Registered>, answers: seq<seq<M.Answer>>, mid: M.State,
                                 m: map<nat, Finalizer>, queued: seq<T.Entry<Finalizer>>, m': map<nat, Finalizer>)
    requires Quiet(s0) && Progress(s0, es, answers, |es|, mid) && FromTable(es, m)
    requires T.Swept(m, Outside(mid.marked), queued, m') && forall o :: o in m' ==> o in mid.marked
    ensures EnqueuesExactly(s0, es, m, queued) <==> OverflowsOnlyOnChains(s0, es, answers)
    ensures Unmarked(s0) < s0.capacity ==> EnqueuesExactly(s0, es, m, queued)
  {
    ExactUnlessOverflow(s0, es, answers, mid);
    if Unmarked(s0) < s0.capacity { ExactIfRoom(s0, es, answers, mid); }
    EnqueuesWhatIsLeft(s0, es, mid, m, queued, m');
    hide Quiet, Progress, QueuesExactly, OverflowsOnlyOnChains, EnqueuesExactly, FromTable;
  }

  /** The marks are closed, as an incremental collector needs them when the world goes on. */
  lemma ClosedInv(s: M.State, marks: set<Obj>)
    requires Quiet(s) && s.marked <= marks <= s.heap.home.Keys && ClosedUnder(s.heap, marks)
    ensures Inv(s.(marked := marks, stopped := false))
  {
    var t := s.(marked := marks, stopped := false);
    forall src, i: nat | Live(t, src) && i < |M.WordsOf(t, src)| ensures WordOk(t, src, i) {
      assert M.WordsOf(t, src)[i] in M.FieldsOf(t.heap, src.o);
    }
  }

  lemma QueuedAre(es: seq<Registered>, m: map<nat, Finalizer>, marks: set<Obj>, queued: seq<T.Entry<Finalizer>>, m': map<nat, Finalizer>)
    requires FromTable(es, m) && T.Swept(m, Outside(marks), queued, m')
    ensures KeysOf(queued) !! marks && KeysOf(queued) <= m.Keys
    ensures forall o :: o in KeysOf(queued) ==> exists r :: r in es && r.o == o
    ensures forall r, r' :: r in es && r' in es && r.o == r'.o ==> r == r'
  {
    forall o | o in KeysOf(queued) ensures o in m && o !in marks && exists r :: r in es && r.o == o {
      var e :| e in queued && e.key == o;
      assert Registered(o, m[o].proc) in es;
    }
  }

  /**
   * GC_finalize, which starts from s0 and has marked up to mid, turns the finalizer table m into m' and the queue:
   * exactly the deserving objects are enqueued, if and only if the mark stack overflows at most where a chain leads.
   */
  ghost predicate Finalized(s0: M.State, es: seq<Registered>, answers: seq<seq<M.Answer>>, mid: M.State,
                            m: map<nat, Finalizer>, queued: seq<T.Entry<Finalizer>>, m': map<nat, Finalizer>) {
    && Progress(s0, es, answers, |es|, mid) && FromTable(es, m)
    && (EnqueuesExactly(s0, es, m, queued) <==> OverflowsOnlyOnChains(s0, es, answers))
    && (Unmarked(s0) < s0.capacity ==> EnqueuesExactly(s0, es, m, queued))
    && T.Swept(m, Outside(mid.marked), queued, m') && (forall o :: o in m' ==> o in mid.marked)
  }

  /** What GC_finalize leaves: the marks of the enqueued objects are set, and the world may be started if that closes the marks. */
  ghost predicate AfterFinalize(es: seq<Registered>, mid: M.State, queued: seq<T.Entry<Finalizer>>, t: M.State) {
    && t == mid.(marked := mid.marked + KeysOf(queued)) && !t.aborted
    && ((forall o :: !LeavesOut(t.heap, es, KeysOf(queued), t.marked, o)) ==> Inv(t.(stopped := false)))
  }

  lemma ReadyAgain(s0: M.State, es: seq<Registered>, answers: seq<seq<M.Answer>>, mid: M.State, m: map<nat, Finalizer>,
                   queued: seq<T.Entry<Finalizer>>, m': map<nat, Finalizer>, t: M.State)
    requires Progress(s0, es, answers, |es|, mid) && FromTable(es, m) && T.Swept(m, Outside(mid.marked), queued, m')
    requires (forall o :: o in m ==> o in s0.heap.home) && t == mid.(marked := mid.marked + KeysOf(queued))
    ensures AfterFinalize(es, mid, queued, t)
  {
    var over := Over(s0, es, answers, |es|);
    QueuedAre(es, m, mid.marked, queued, m');
    assert MarkedFrom(s0, es, |es|, over, mid) && Quiet(mid) && !mid.aborted && mid.heap == s0.heap && mid.marked <= mid.heap.home.Keys;
    hide Progress, MarkedFrom, Quiet, KeysOf, FromTable, T.Swept, LeavesOut, ClosedUnder, Over;
    EnqueuedClosed(s0, es, over, mid, KeysOf(queued));
    if forall o :: !LeavesOut(t.heap, es, KeysOf(queued), t.marked, o) {
      ClosedInv(mid, t.marked);
      assert t.(stopped := false) == mid.(marked := t.marked, stopped := false);
    }
  }

  /** After the second and the third loop of GC_finalize. */
  lemma FinalizedAfter(s0: M.State, es: seq<Registered>, answers: seq<seq<M.Answer>>, mid: M.State, m: map<nat, Finalizer>,
                       queued: seq<T.Entry<Finalizer>>, m': map<nat, Finalizer>, t: M.State)
    requires Quiet(s0) && Progress(s0, es, answers, |es|, mid) && FromTable(es, m)
    requires T.Swept(m, Outside(mid.marked), queued, m') && forall o :: o in m' ==> o in mid.marked
    requires (forall o :: o in m ==> o in s0.heap.home) && t == mid.(marked := mid.marked + KeysOf(queued))
    ensures Finalized(s0, es, answers, mid, m, queued, m') && AfterFinalize(es, mid, queued, t)
  {
    hide Quiet, Progress, FromTable, EnqueuesExactly, OverflowsOnlyOnChains, Unmarked, KeysOf, T.Swept, AfterFinalize;
    QueueExactUnlessOverflow(s0, es, answers, mid, m, queued, m');
    ReadyAgain(s0, es, answers, mid, m, queued, m', t);
  }

  /** One round of the second loop of GC_finalize. */
  method MarkEntry(gc: C.Collector, ghost s0: M.State, ghost es: seq<Registered>, ghost answers: seq<seq<M.Answer>>, ghost k: nat, r: Registered)
    returns (ghost oks: seq<M.Answer>)
    requires k < |es| && es[k] == r && Progress(s0, es, answers, k, gc.Abs())
    requires r.o in gc.heap.home && |gc.statics| <= M.INITIAL_MARK_STACK_SIZE / 2
    modifies gc
    ensures Progress(s0, es, answers + [oks], k + 1, gc.Abs()) && gc.heap == s0.heap && gc.statics == s0.statics
  {
    ghost var s := gc.Abs();
    ProgressIs(s0, es, answers, k, s);
    hide Progress, Quiet, AfterFo, Overflows, Finished;
    oks := [];
    if r.o !in gc.marked {
      var overflowed;
      overflowed, oks := MarkFo(gc, r);
      FinishedHeap(s, s.marked + (if overflowed then {r.o} else Starts(gc.heap, r)), gc.Abs());
      EntryDone(s0, es, answers, k, s, oks);
    } else {
      EntrySkipped(s0, es, answers, k, s);
    }
    ProgressIs(s0, es, answers + [oks], k + 1, gc.Abs());
  }

  lemma FinishedHeap(s0: M.State, base: set<Obj>, s: M.State)
    requires Finished(s0, base, s)
    ensures s.heap == s0.heap
  {
  }

  /** The links of m to objects in marks. */
  function LinksTo(m: map<nat, Obj>, marks: set<Obj>): map<nat, Obj> {
    map l | l in m && m[l] in marks :: m[l]
  }

  /** The links of m that do not lie in an object outside marks. */
  function LinksFrom(m: map<nat, Obj>, base: nat -> nat, marks: set<Obj>): map<nat, Obj> {
    map l | l in m && (base(l) == 0 || base(l) in marks) :: m[l]
  }

  /** Exactly the links of m to objects outside marks are cleared. */
  ghost predicate Clears(m: map<nat, Obj>, marks: set<Obj>, cleared: seq<T.Entry<Obj>>) {
    forall e :: e in cleared <==> e.key in m && m[e.key] == e.value && e.value !in marks
  }

  lemma ClearedLinks(m: map<nat, Obj>, marks: set<Obj>, cleared: seq<T.Entry<Obj>>, m': map<nat, Obj>)
    requires T.Swept(m, ToOutside(marks), cleared, m') && forall k :: k in m' ==> !ToOutside(marks)(k, m'[k])
    ensures Clears(m, marks, cleared) && m' == LinksTo(m, marks)
  {
    forall e ensures e in cleared <==> e.key in m && m[e.key] == e.value && e.value !in marks {
      if e.key in m && m[e.key] == e.value { assert e == T.Entry(e.key, m[e.key]); }
    }
    forall k ensures k in m' <==> k in m && m[k] in marks {
      if k in m && k !in m' { assert T.Entry(k, m[k]) in cleared; }
    }
  }

  lemma LinksLeft(m: map<nat, Obj>, base: nat -> nat, marks: set<Obj>, dangling: seq<T.Entry<Obj>>, m': map<nat, Obj>)
    requires T.Swept(m, FromOutside(base, marks), dangling, m') && forall k :: k in m' ==> !FromOutside(base, marks)(k, m'[k])
    ensures m' == LinksFrom(m, base, marks)
  {
    forall k ensures k in m' <==> k in m && (base(k) == 0 || base(k) in marks) {
      if k in m && k !in m' { assert T.Entry(k, m[k]) in dangling; }
    }
  }

  class Finalizers {
    const gc: C.Collector
    const dl: T.Table<Obj>          // disappearing links: link -> object
    const fo: T.Table<Finalizer>    // finalizers: object -> finalizer
    var queue: seq<T.Entry<Finalizer>> // GC_finalize_now, first entry first

    ghost predicate Valid() reads this, dl, fo {
      dl.Valid() && fo.Valid()
    }

    constructor (gc: C.Collector, hash: (nat, nat) -> nat)
      ensures Valid() && this.gc == gc && fresh(dl) && fresh(fo) && queue == []
      ensures dl.Contents() == map[] && fo.Contents() == map[] && dl.size == fo.size == 0
    {
      this.gc, queue := gc, [];
      dl := new T.Table<Obj>(hash);
      fo := new T.Table<Finalizer>(hash);
    }

    /** GC_general_register_disappearing_link. */
    method RegisterLink(link: nat, o: Obj, memory: bool, a: T.Alloc<Obj>) returns (r: LinkResult)
      requires dl.Valid()
      modifies dl
      ensures dl.Valid()
      ensures r.BadArgument? <==> link == 0 || link % ALIGNMENT != 0
      ensures r.NoTable? <==> !r.BadArgument? && !memory && old(dl.size) == 0
      ensures dl.Contents() == if r.Done? then T.AfterRegister(old(dl.Contents()), link, o, a) else old(dl.Contents())
      ensures r.Done? && (link in old(dl.Contents()) || T.Undisturbed(a)) ==> dl.size == T.GrownIfFull(old(dl.size), old(dl.count), memory)
      ensures r.Done? && link in old(dl.Contents()) ==> r.r == T.Duplicate
      ensures r.Done? && link !in old(dl.Contents()) ==> (r.r == T.OutOfMemory <==> a.NoMemory?)
    {
      if link % ALIGNMENT != 0 || link == 0 { return BadArgument; }
      var aborted := dl.GrowIfFull(memory);
      if aborted { return NoTable; }
      var result := dl.Register(link, o, a);
      return Done(result);
    }

    /**
     * GC_unregister_disappearing_link.  It does not test whether the table exists: before the first
     * registration it reads through a null pointer.
     */
    method UnregisterLink(link: nat) returns (r: Unlinked)
      requires dl.Valid()
      modifies dl
      ensures dl.Valid()
      ensures r.NullTable? <==> link % ALIGNMENT == 0 && old(dl.size) == 0
      ensures dl.Contents() == if r.NullTable? || link % ALIGNMENT != 0 then old(dl.Contents()) else old(dl.Contents()) - {link}
      ensures r.Removed? ==> link in old(dl.Contents())
      ensures r.NotRegistered? && link % ALIGNMENT == 0 ==> link !in old(dl.Contents())
    {
      if link % ALIGNMENT != 0 { return NotRegistered; }
      if dl.size == 0 { return NullTable; }
      var found := dl.Unregister(link);
      return if found then Removed else NotRegistered;
    }

    /** GC_register_finalizer_inner: without f the finalizer is removed; an object outside the heap gets none. */
    method RegisterFinalizer(o: Obj, f: Option, inHeap: bool, memory: bool, a: T.Alloc<Finalizer>) returns (aborted: bool)
      requires fo.Valid()
      modifies fo
      ensures fo.Valid() && (aborted <==> !memory && old(fo.size) == 0) && (aborted ==> fo.Contents() == old(fo.Contents()))
      ensures f.None? || o in old(fo.Contents()) || T.Undisturbed(a) ==> fo.size == T.GrownIfFull(old(fo.size), old(fo.count), memory)
      ensures !aborted ==> fo.Contents() == AfterRequest(old(fo.Contents()), o, f, inHeap, a)
      ensures !aborted && f.None? ==> fo.Contents() == old(fo.Contents()) - {o}
      ensures !aborted && f.Some? && (o in old(fo.Contents()) || (inHeap && a.FromHeap?)) ==> fo.Contents() == old(fo.Contents())[o := f.value]
      ensures !aborted && f.Some? && o !in old(fo.Contents()) && (!inHeap || a == T.NoMemory([])) ==> fo.Contents() == old(fo.Contents())
    {
      aborted := fo.GrowIfFull(memory);
      if aborted { return; }
      match f {
        case None => var found := fo.Unregister(o);
        case Some(v) =>
          var found := fo.Has(o);
          if found || inHeap { var r := fo.Register(o, v, a); }
      }
    }

    // ---------- GC_finalize ----------

    /** The second loop of GC_finalize: mark what is reachable from unmarked finalizable objects. */
    method MarkFinalizable() returns (ghost es: seq<Registered>, ghost answers: seq<seq<M.Answer>>)
      requires fo.Valid() && Quiet(gc.Abs()) && |gc.statics| <= M.INITIAL_MARK_STACK_SIZE / 2
      requires forall o :: o in fo.Contents() ==> o in gc.heap.home
      modifies gc
      ensures Progress(old(gc.Abs()), es, answers, |es|, gc.Abs()) && FromTable(es, fo.Contents())
    {
      ghost var s0 := gc.Abs();
      var entries := fo.Traverse();
      es, answers := Registrations(entries), [];
      RegistrationsAre(entries, fo.Contents());
      ProgressStarts(s0, es);
      hide Quiet, Progress, FromTable;
      for k := 0 to |entries|
        invariant Progress(s0, es, answers, k, gc.Abs()) && gc.heap == s0.heap && gc.statics == s0.statics
      {
        var e := entries[k];
        ghost var oks := MarkEntry(gc, s0, es, answers, k, Registered(e.key, e.value.proc));
        answers := answers + [oks];
      }
    }

    /** The third loop of GC_finalize: unmarked objects go to the front of the queue, and are marked. */
    method EnqueueUnmarked() returns (ghost queued: seq<T.Entry<Finalizer>>)
      requires fo.Valid()
      modifies fo, gc`marked, this`queue
      ensures fo.Valid() && T.Swept(old(fo.Contents()), Outside(old(gc.marked)), queued, fo.Contents())
      ensures forall o :: o in fo.Contents() ==> o in old(gc.marked)
      ensures queue == Reversed(queued) + old(queue)
      ensures gc.marked == old(gc.marked) + KeysOf(queued)
    {
      var marks := gc.marked;
      var q := fo.RemoveWhere(Outside(marks));
      queue := Reversed(q) + queue;
      gc.marked := marks + KeysOf(q);
      queued := q;
    }

    /**
     * GC_finalize, not in the Java mode; base is GC_base.  Links to unmarked objects are cleared; then
     * exactly the objects of the table that MarkFinalizable leaves unmarked are enqueued; then links
     * from objects that are still unmarked are forgotten.
     */
    method Finalize(base: nat -> nat) returns (cleared: seq<T.Entry<Obj>>, ghost es: seq<Registered>, ghost answers: seq<seq<M.Answer>>,
                                               ghost mid: M.State, ghost queued: seq<T.Entry<Finalizer>>)
      requires Valid() && dl as object != fo && Quiet(gc.Abs()) && |gc.statics| <= M.INITIAL_MARK_STACK_SIZE / 2
      requires forall o :: o in fo.Contents() ==> o in gc.heap.home
      modifies gc, dl, fo, this`queue
      ensures Valid()
      ensures Clears(old(dl.Contents()), old(gc.marked), cleared)
      ensures Finalized(old(gc.Abs()), es, answers, mid, old(fo.Contents()), queued, fo.Contents())
      ensures queue == Reversed(queued) + old(queue) && gc.marked == mid.marked + KeysOf(queued)
      ensures dl.Contents() == LinksFrom(LinksTo(old(dl.Contents()), old(gc.marked)), base, gc.marked)
      ensures AfterFinalize(es, mid, queued, gc.Abs())
    {
      hide Quiet, Finalized, KeysOf, Clears, LinksTo, LinksFrom, AfterFinalize;
      cleared := ClearLinks();
      es, answers, mid, queued := MarkAndEnqueue();
      ForgetLinks(base);
    }

    /**
     * GC_try_to_collect_inner with GC_never_stop_func: a full collection, and GC_finalize at its end.  The world
     * is started before GC_finalize, but the allocation lock is held until that is over; `stopped` stands for
     * both, and no mutator takes a step in between.  `from` is the state in which the full collection starts, which
     * is the first one unless a collection was in progress, and s0 the state when marking is complete.
     */
    method CollectAndFinalize(driver: C.Driver, base: nat -> nat)
      returns (cleared: seq<T.Entry<Obj>>, ghost from: M.State, ghost s0: M.State, ghost es: seq<Registered>,
               ghost answers: seq<seq<M.Answer>>, ghost mid: M.State, ghost queued: seq<T.Entry<Finalizer>>)
      requires driver.gc == gc && driver as object !in {dl, fo}
      requires Valid() && dl as object != fo && gc.Ready() && |gc.statics| <= M.INITIAL_MARK_STACK_SIZE / 2
      requires forall o :: o in fo.Contents() ==> o in gc.heap.home
      modifies gc, dl, fo, this`queue, driver
      ensures Valid() && !gc.stopped && !gc.aborted
      ensures X.OnlyFound(old(gc.Abs()), from) && (!old(driver.InProgress()) ==> from == old(gc.Abs()))
      ensures X.SameMemory(from, s0) && X.LeastAround(s0, X.Retained(from), s0.marked) && M.AllReachableMarked(s0)
      ensures Clears(old(dl.Contents()), s0.marked, cleared)
      ensures Finalized(s0, es, answers, mid, old(fo.Contents()), queued, fo.Contents())
      ensures queue == Reversed(queued) + old(queue) && gc.marked == mid.marked + KeysOf(queued)
      ensures dl.Contents() == LinksFrom(LinksTo(old(dl.Contents()), s0.marked), base, gc.marked)
      ensures (forall o :: !LeavesOut(gc.heap, es, KeysOf(queued), gc.marked, o)) ==> gc.Ready()
    {
      hide Quiet, Inv, Finalized, KeysOf, Clears, LinksTo, LinksFrom, LeavesOut, M.AllReachableMarked;
      from := MarkFully(driver);
      s0 := gc.Abs();
      cleared, es, answers, mid, queued := Finalize(base);
      gc.stopped := false;
    }

    /** The part of the collection before GC_finalize. */
    method MarkFully(driver: C.Driver) returns (ghost from: M.State)
      requires driver.gc == gc && gc.Ready() && |gc.statics| <= M.INITIAL_MARK_STACK_SIZE / 2
      modifies gc, driver
      ensures Quiet(gc.Abs()) && X.SameMemory(old(gc.Abs()), gc.Abs())
      ensures X.OnlyFound(old(gc.Abs()), from) && (!old(driver.InProgress()) ==> from == old(gc.Abs()))
      ensures X.SameMemory(from, gc.Abs()) && X.LeastAround(gc.Abs(), X.Retained(from), gc.marked) && M.AllReachableMarked(gc.Abs())
    {
      hide Quiet, Inv, M.AllReachableMarked, M.OnlyStrayMissed, LastStep, X.OnlyFound, X.LeastAround, X.Calls, X.EndsWell, X.Retained;
      var collected;
      ghost var began, run, end, asked;
      collected, began, from, run, end, asked := driver.TryToCollect(false, C.Never, i => C.Never, false);
      ghost var running := gc.Abs();
      gc.stopped := true;
      X.LeastSame(running, gc.Abs(), X.Retained(from));
      EndOfMarking(run, end);
    }

    static lemma EndOfMarking(run: X.Run, t: M.State)
      requires X.EndsWell(run, t) && t.stray == {}
      ensures Quiet(t)
    {
      LastStepQuiet(run.states[|run.answers| - 1], run.answers[|run.answers| - 1], t);
    }

    /** The first loop of GC_finalize: links to unmarked objects are cleared. */
    method ClearLinks() returns (cleared: seq<T.Entry<Obj>>)
      requires dl.Valid()
      modifies dl
      ensures dl.Valid() && Clears(old(dl.Contents()), gc.marked, cleared) && dl.Contents() == LinksTo(old(dl.Contents()), gc.marked)
    {
      cleared := dl.RemoveWhere(ToOutside(gc.marked));
      ClearedLinks(old(dl.Contents()), gc.marked, cleared, dl.Contents());
    }

    /** The last loop: links that lie in unmarked objects are forgotten. */
    method ForgetLinks(base: nat -> nat)
      requires dl.Valid()
      modifies dl
      ensures dl.Valid() && dl.Contents() == LinksFrom(old(dl.Contents()), base, gc.marked)
    {
      var dangling := dl.RemoveWhere(FromOutside(base, gc.marked));
      LinksLeft(old(dl.Contents()), base, gc.marked, dangling, dl.Contents());
    }

    /** The two loops between. */
    method MarkAndEnqueue()
      returns (ghost es: seq<Registered>, ghost answers: seq<seq<M.Answer>>, ghost mid: M.State, ghost queued: seq<T.Entry<Finalizer>>)
      requires fo.Valid() && Quiet(gc.Abs()) && |gc.statics| <= M.INITIAL_MARK_STACK_SIZE / 2
      requires forall o :: o in fo.Contents() ==> o in gc.heap.home
      modifies gc, fo, this`queue
      ensures fo.Valid() && Finalized(old(gc.Abs()), es, answers, mid, old(fo.Contents()), queued, fo.Contents())
      ensures queue == Reversed(queued) + old(queue) && gc.marked == mid.marked + KeysOf(queued)
      ensures AfterFinalize(es, mid, queued, gc.Abs())
    {
      ghost var s0 := gc.Abs();
      hide Quiet, Progress, FromTable, KeysOf, T.Swept, Finalized, AfterFinalize, Outside;
      es, answers := MarkFinalizable();
      mid := gc.Abs();
      queued := EnqueueUnmarked();
      FinalizedAfter(s0, es, answers, mid, old(fo.Contents()), queued, fo.Contents(), gc.Abs());
    }
  }

  /** Unregistering any aligned link before the first registration reads through the null pointer. */
  method UnregisterFirst(gc: C.Collector, hash: (nat, nat) -> nat, link: nat) returns (r: Unlinked)
    ensures r == NullTable <==> link % ALIGNMENT == 0
  {
    var f := new Finalizers(gc, hash);
    r := f.UnregisterLink(link);
  }
}
