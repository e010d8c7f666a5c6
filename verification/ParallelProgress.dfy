/**
When parallel marking makes progress.  A phase that becomes invalid has marked something, unless
GC_return_mark_stack found no room for its entries; and it always finds room for them if the global mark stack
has room for what splitting the ranges on it can come to.
 */
module ParallelProgress {
  import opened ParallelMark
  import B = ShareBound

  /** The sizes are such that a call of GC_mark_from makes headway with what one thread takes at once. */
  predicate Sized(c: Config) {
    && SPLIT_RANGE_WORDS <= c.share
    && B.ENTRIES_TO_GET * c.unit <= c.share
    && c.share + B.ENTRIES_TO_GET * c.unit <= c.credit
    && MaxLocal(c) <= c.localSize / 2
  }

  /** As long as nothing is marked, local stacks are no larger. */
  function MaxLocal(c: Config): nat
    requires SPLIT_RANGE_WORDS <= c.share
  {
    B.ENTRIES_TO_GET + 1 + B.Depth(c.share, B.LONGEST)
  }

  // ---------- the entries that may still be returned ----------

  function TakenOf(c: Config, k: nat, e: Entry): nat { if 2 <= c.share then B.Taken(c.share, k, e.size) else 0 }

  function ScannedOf(c: Config, k: nat, e: Entry): nat { if 2 <= c.share then B.Scanned(c.share, k, e.size) else 0 }

  /** For entries that a thread takes from the global stack. */
  function Batch(c: Config, k: nat, es: seq<Entry>): nat {
    if es == [] then 0 else Batch(c, k, es[..|es| - 1]) + TakenOf(c, k, es[|es| - 1])
  }

  /** For entries below the top of a local stack, which may be returned themselves. */
  function Below(c: Config, k: nat, es: seq<Entry>): nat { |es| + k * Batch(c, k, es) }

  /** For a local stack. */
  function Chain(c: Config, k: nat, es: seq<Entry>): nat {
    if es == [] then 0 else Below(c, k, es[..|es| - 1]) + ScannedOf(c, k, es[|es| - 1])
  }

  function Total(es: seq<Entry>): nat {
    if es == [] then 0 else Total(es[..|es| - 1]) + es[|es| - 1].size
  }

  predicate Short(c: Config, es: seq<Entry>) {
    forall i :: 0 <= i < |es| ==> es[i].size <= c.share
  }

  /** The rest of this call of GC_mark_from scans all that is on the local stack. */
  predicate Safe(c: Config, es: seq<Entry>, credit: int) { Short(c, es) && Total(es) <= credit }

  function Marking(c: Config, k: nat, es: seq<Entry>, credit: int): nat {
    if Safe(c, es, credit) then 0 else Chain(c, k, es)
  }

  /** For what the thread holds. */
  function Own(c: Config, k: nat, th: Thread): nat {
    match th.pc
    case Steal(_, _, _, _) => Batch(c, k, th.local)
    case Take(_, _, _, _, e) => Batch(c, k, th.local) + TakenOf(c, k, e)
    case Mark(credit) => Marking(c, k, th.local, credit)
    case Scan(_, _, _, credit) => Marking(c, k, th.local, credit)
    case SetMark(_, _, _, credit) => Marking(c, k, th.local, credit)
    case _ => Chain(c, k, th.local)
  }

  /** For the entries of the global stack, all of which the thread may still take, except the one it is just taking. */
  function Claims(c: Config, k: nat, stack: seq<Slot>, except: int): nat {
    if stack == [] then 0
    else
      var i := |stack| - 1;
      Claims(c, k, stack[..i], except) + (if stack[i].Full? && i != except then TakenOf(c, k, stack[i].e) else 0)
  }

  function InTaking(pc: Pc): int { if pc.Take? then pc.p else -1 }

  function Load(c: Config, k: nat, stack: seq<Slot>, th: Thread): nat {
    Own(c, k, th) + Claims(c, k, stack, InTaking(th.pc))
  }

  ghost function Loads(c: Config, k: nat, stack: seq<Slot>, threads: map<Tid, Thread>, ts: set<Tid>): nat
    requires ts <= threads.Keys
  {
    if ts == {} then 0
    else
      var t :| t in ts;
      Load(c, k, stack, threads[t]) + Loads(c, k, stack, threads, ts - {t})
  }

  /** How large the global stack may become as long as nothing is marked. */
  ghost function Potential(c: Config, s: State): nat {
    |s.stack| + Loads(c, |s.threads|, s.stack, s.threads, s.threads.Keys)
  }

  /** The same, before the threads start. */
  function StackBound(c: Config, k: nat, stack: seq<Slot>): nat {
    |stack| + k * Claims(c, k, stack, -1)
  }

  // ---------- sums ----------

  lemma {:induction false} LoadsWith(c: Config, k: nat, stack: seq<Slot>, threads: map<Tid, Thread>, ts: set<Tid>, t: Tid)
    requires ts <= threads.Keys && t in ts
    ensures Loads(c, k, stack, threads, ts) == Load(c, k, stack, threads[t]) + Loads(c, k, stack, threads, ts - {t})
  {
    hide Load;
    var t0 :| t0 in ts && Loads(c, k, stack, threads, ts) == Load(c, k, stack, threads[t0]) + Loads(c, k, stack, threads, ts - {t0});
    if t0 != t {
      LoadsWith(c, k, stack, threads, ts - {t0}, t);
      LoadsWith(c, k, stack, threads, ts - {t}, t0);
      assert ts - {t0} - {t} == ts - {t} - {t0};
    }
  }

  /** No thread's load grows by more than d. */
  lemma {:induction false} LoadsGrow(c: Config, k: nat, stack: seq<Slot>, threads: map<Tid, Thread>, stack': seq<Slot>,
                                     threads': map<Tid, Thread>, ts: set<Tid>, d: nat)
    requires ts <= threads.Keys && ts <= threads'.Keys
    requires forall u :: u in ts ==> Load(c, k, stack', threads'[u]) <= Load(c, k, stack, threads[u]) + d
    ensures Loads(c, k, stack', threads', ts) <= Loads(c, k, stack, threads, ts) + |ts| * d
    decreases ts
  {
    hide Load;
    if ts != {} {
      var t :| t in ts;
      LoadsWith(c, k, stack, threads, ts, t);
      LoadsWith(c, k, stack', threads', ts, t);
      LoadsGrow(c, k, stack, threads, stack', threads', ts - {t}, d);
      assert |ts| == |ts - {t}| + 1;
      Distribute(|ts - {t}|, d);
    }
  }

  lemma Distribute(n: nat, d: nat)
    ensures (n + 1) * d == n * d + d
  {
  }

  lemma DistributeSum(k: nat, x: nat, y: nat)
    ensures k * (x + y) == k * x + k * y
  {
  }

  /** A step of thread t, after which the loads of the others are larger by at most d. */
  lemma PotentialStep(c: Config, s: State, s': State, t: Tid, d: nat)
    requires t in s.threads && s'.threads.Keys == s.threads.Keys && |s.stack| <= |s'.stack|
    requires forall u :: u in s.threads && u != t ==>
      Load(c, |s.threads|, s'.stack, s'.threads[u]) <= Load(c, |s.threads|, s.stack, s.threads[u]) + d
    requires |s'.stack| - |s.stack| + Load(c, |s.threads|, s'.stack, s'.threads[t]) + |s.threads| * d
             <= Load(c, |s.threads|, s.stack, s.threads[t]) + d
    ensures Potential(c, s') <= Potential(c, s)
  {
    hide Load;
    var k, ts := |s.threads|, s.threads.Keys;
    assert |s'.threads| == |s'.threads.Keys| && |s.threads| == |ts|;
    LoadsWith(c, k, s.stack, s.threads, ts, t);
    LoadsWith(c, k, s'.stack, s'.threads, ts, t);
    LoadsGrow(c, k, s.stack, s.threads, s'.stack, s'.threads, ts - {t}, d);
    assert |ts| == |ts - {t}| + 1;
    Distribute(|ts - {t}|, d);
  }

  lemma {:induction false} BatchConcat(c: Config, k: nat, es: seq<Entry>, fs: seq<Entry>)
    ensures Batch(c, k, es + fs) == Batch(c, k, es) + Batch(c, k, fs)
    decreases |fs|
  {
    if fs == [] {
      assert es + fs == es;
    } else {
      assert (es + fs)[..|es + fs| - 1] == es + fs[..|fs| - 1];
      BatchConcat(c, k, es, fs[..|fs| - 1]);
    }
  }

  lemma BelowConcat(c: Config, k: nat, es: seq<Entry>, fs: seq<Entry>)
    ensures Below(c, k, es + fs) == Below(c, k, es) + Below(c, k, fs)
  {
    BatchConcat(c, k, es, fs);
    DistributeSum(k, Batch(c, k, es), Batch(c, k, fs));
  }

  lemma BelowOne(c: Config, k: nat, e: Entry)
    ensures Below(c, k, [e]) == 1 + k * TakenOf(c, k, e)
  {
    assert [e][..0] == [];
    assert Batch(c, k, [e]) == TakenOf(c, k, e);
  }

  lemma {:induction false} TotalConcat(es: seq<Entry>, fs: seq<Entry>)
    ensures Total(es + fs) == Total(es) + Total(fs)
    decreases |fs|
  {
    if fs == [] {
      assert es + fs == es;
    } else {
      assert (es + fs)[..|es + fs| - 1] == es + fs[..|fs| - 1];
      TotalConcat(es, fs[..|fs| - 1]);
    }
  }

  lemma {:induction false} ClaimsConcat(c: Config, k: nat, stack: seq<Slot>, es: seq<Entry>, slots: seq<Slot>, except: int)
    requires except < |stack| && |slots| == |es| && forall i :: 0 <= i < |es| ==> slots[i] == Full(es[i])
    ensures Claims(c, k, stack + slots, except) == Claims(c, k, stack, except) + Batch(c, k, es)
    decreases |es|
  {
    if es == [] {
      assert stack + slots == stack;
    } else {
      var i := |es| - 1;
      assert (stack + slots)[..|stack + slots| - 1] == stack + slots[..i];
      ClaimsConcat(c, k, stack, es[..i], slots[..i], except);
    }
  }

  lemma {:induction false} ClaimsThreads(c: Config, k: nat, m: nat, stack: seq<Slot>)
    requires 2 <= c.share && k <= m
    ensures Claims(c, k, stack, -1) <= Claims(c, m, stack, -1)
  {
    if stack != [] {
      var i := |stack| - 1;
      ClaimsThreads(c, k, m, stack[..i]);
      if stack[i].Full? { B.ScannedThreads(c.share, k, m, stack[i].e.size); }
    }
  }

  /** Clearing entry p, or taking it, removes what it counts for. */
  lemma {:induction false} ClaimsWithout(c: Config, k: nat, stack: seq<Slot>, p: nat, except: int)
    requires p < |stack|
    ensures Claims(c, k, stack[p := Empty], except) <= Claims(c, k, stack, except)
    ensures Claims(c, k, stack[p := Empty], p) == Claims(c, k, stack, p)
    ensures Claims(c, k, stack[p := Empty], -1) == Claims(c, k, stack[p := Empty], p)
    ensures stack[p].Full? ==> Claims(c, k, stack, -1) == Claims(c, k, stack, p) + TakenOf(c, k, stack[p].e)
  {
    var i := |stack| - 1;
    assert stack[p := Empty][..i] == if p < i then stack[..i][p := Empty] else stack[..i];
    if p < i { ClaimsWithout(c, k, stack[..i], p, except); } else { ClaimsBelow(c, k, stack[..i], p); }
  }

  lemma {:induction false} ClaimsBelow(c: Config, k: nat, stack: seq<Slot>, p: nat)
    requires |stack| <= p
    ensures Claims(c, k, stack, p) == Claims(c, k, stack, -1)
  {
    if stack != [] { ClaimsBelow(c, k, stack[..|stack| - 1], p); }
  }

  // ---------- one thread ----------

  /** Taking an entry first and then splitting it comes to more than splitting it at once. */
  lemma ScannedBelow(c: Config, k: nat, e: Entry)
    requires 1 <= k
    ensures ScannedOf(c, k, e) <= TakenOf(c, k, e) <= k * TakenOf(c, k, e)
  {
    B.Scale(TakenOf(c, k, e), 1, k);
  }

  lemma {:induction false} ChainBelow(c: Config, k: nat, es: seq<Entry>)
    requires 1 <= k
    ensures Chain(c, k, es) <= Below(c, k, es)
  {
    if es != [] {
      var i := |es| - 1;
      assert es == es[..i] + [es[i]];
      BelowConcat(c, k, es[..i], [es[i]]);
      BelowOne(c, k, es[i]);
      ScannedBelow(c, k, es[i]);
      hide Below, TakenOf, ScannedOf;
    }
  }

  lemma MarkingBelow(c: Config, k: nat, es: seq<Entry>, credit: int)
    requires 1 <= k
    ensures Marking(c, k, es, credit) <= Chain(c, k, es) <= Below(c, k, es)
  {
    ChainBelow(c, k, es);
  }

  /** The lower part of a local stack may be given away. */
  lemma ChainSplit(c: Config, k: nat, es: seq<Entry>, n: nat)
    requires n < |es|
    ensures Chain(c, k, es) == Below(c, k, es[..n]) + Chain(c, k, es[n..])
  {
    var i := |es| - 1;
    assert es[..i] == es[..n] + es[n..][..i - n] && es[n..][|es[n..]| - 1] == es[i];
    BelowConcat(c, k, es[..n], es[n..][..i - n]);
    hide Below;
  }

  lemma ChainSplitTop(c: Config, k: nat, rest: seq<Entry>, e: Entry)
    requires 2 <= c.share < e.size
    ensures Chain(c, k, rest + [Lower(e), Upper(e)]) == Chain(c, k, rest + [e])
  {
    assert (rest + [e])[..|rest|] == rest;
    var es := rest + [Lower(e), Upper(e)];
    assert es[..|es| - 1] == rest + [Lower(e)] && es[|es| - 1] == Upper(e);
    BelowConcat(c, k, rest, [Lower(e)]);
    BelowOne(c, k, Lower(e));
    assert ScannedOf(c, k, e) == 1 + k * TakenOf(c, k, Lower(e)) + ScannedOf(c, k, Upper(e));
    hide Below, TakenOf, ScannedOf;
  }

  lemma ChainShrink(c: Config, k: nat, rest: seq<Entry>, e: Entry, f: Entry)
    requires f.size <= e.size
    ensures Chain(c, k, rest + [f]) <= Chain(c, k, rest + [e])
  {
    assert (rest + [e])[..|rest|] == rest && (rest + [f])[..|rest|] == rest;
    if 2 <= c.share { B.ScannedMonotone(c.share, k, f.size, e.size); }
    hide Below;
  }

  lemma ChainPop(c: Config, k: nat, rest: seq<Entry>, e: Entry)
    requires 1 <= k
    ensures Chain(c, k, rest) <= Chain(c, k, rest + [e])
  {
    assert (rest + [e])[..|rest|] == rest;
    ChainBelow(c, k, rest);
    hide Below;
  }

  /** A call of GC_mark_from that scans all it has goes on to do so. */
  lemma NextSafe(c: Config, th: Thread)
    requires th.pc.Mark? && th.local != [] && Safe(c, th.local, th.pc.credit)
    ensures var th' := NextEntry(c, th); th'.pc.Scan? && Safe(c, th'.local, th'.pc.credit)
  {
    var i, th' := |th.local| - 1, NextEntry(c, th);
    assert th'.pc.Scan?;
    if th'.local != th.local[..i] {
      var f := th'.local[i];
      assert th'.local == th.local[..i] + [f];
      TotalConcat(th.local[..i], [f]);
      assert [f][..0] == [] && Total([f]) == f.size;
    }
  }

  lemma NextMarking(c: Config, k: nat, th: Thread)
    requires Sized(c) && 1 <= k && th.pc.Mark? && th.local != [] && |th.local| < c.localSize
    ensures Own(c, k, NextEntry(c, th)) <= Own(c, k, th)
  {
    if Safe(c, th.local, th.pc.credit) {
      NextSafe(c, th);
    } else {
      var i, th' := |th.local| - 1, NextEntry(c, th);
      var rest, e := th.local[..i], th.local[i];
      assert th.local == rest + [e];
      if th'.pc.Mark? {
        ChainSplitTop(c, k, rest, e);
      } else if th'.local == rest {
        ChainPop(c, k, rest, e);
      } else {
        ChainShrink(c, k, rest, e, th'.local[i]);
      }
      hide Chain, Safe;
    }
  }

  // ---------- what is taken at once ----------

  function WeightOf(c: Config, es: seq<Entry>): nat {
    if es == [] then 0 else WeightOf(c, es[..|es| - 1]) + Weight(c, es[|es| - 1])
  }

  lemma WeightPositive(c: Config, size: nat)
    ensures size < c.unit * (1 + size / c.unit)
  {
    assert size == c.unit * (size / c.unit) + size % c.unit;
    assert c.unit * (1 + size / c.unit) == c.unit + c.unit * (size / c.unit);
  }

  lemma {:induction false} WeightBounds(c: Config, es: seq<Entry>)
    ensures |es| <= WeightOf(c, es) && Total(es) <= c.unit * WeightOf(c, es)
    ensures forall i :: 0 <= i < |es| ==> es[i].size <= Total(es)
  {
    if es != [] {
      var i := |es| - 1;
      WeightBounds(c, es[..i]);
      WeightPositive(c, es[i].size);
      DistributeSum(c.unit, WeightOf(c, es[..i]), Weight(c, es[i]));
    }
  }

  lemma {:induction false} BatchShort(c: Config, k: nat, es: seq<Entry>)
    requires Short(c, es)
    ensures Batch(c, k, es) == 0
  {
    if es != [] { BatchShort(c, k, es[..|es| - 1]); }
  }

  /** A thread has taken what GC_steal_mark_stack allows: only the last entry may count for more than is left. */
  predicate Counted(c: Config, es: seq<Entry>, count: nat, max: nat) {
    && max <= B.ENTRIES_TO_GET && WeightOf(c, es) == count
    && (es != [] ==> WeightOf(c, es[..|es| - 1]) <= max)
  }

  lemma ShortRest(c: Config, rest: seq<Entry>)
    requires Sized(c) && WeightOf(c, rest) <= B.ENTRIES_TO_GET
    ensures Short(c, rest) && |rest| <= B.ENTRIES_TO_GET && Total(rest) <= B.ENTRIES_TO_GET * c.unit
  {
    WeightBounds(c, rest);
    B.Scale(c.unit, WeightOf(c, rest), B.ENTRIES_TO_GET);
    hide WeightOf, Total;
  }

  /** What the threads took either is scanned in one call of GC_mark_from, or has only its top entry left to split. */
  lemma StolenMarking(c: Config, k: nat, es: seq<Entry>, count: nat, max: nat)
    requires Sized(c) && Counted(c, es, count, max)
    ensures Marking(c, k, es, c.credit) <= Batch(c, k, es)
    ensures |es| <= B.ENTRIES_TO_GET + 1
  {
    if es != [] {
      var rest, e := es[..|es| - 1], es[|es| - 1];
      ShortRest(c, rest);
      if e.size <= c.share {
        assert Safe(c, es, c.credit);
      } else {
        BatchShort(c, k, rest);
        assert TakenOf(c, k, e) == B.ENTRIES_TO_GET + ScannedOf(c, k, e);
      }
    }
  }

  // ---------- as long as nothing is marked ----------

  predicate Limited(es: seq<Entry>) {
    forall i :: 0 <= i < |es| ==> es[i].size <= B.LONGEST
  }

  /** However the entries of a local stack are split, it does not become too large. */
  predicate Shallow(c: Config, es: seq<Entry>)
    requires SPLIT_RANGE_WORDS <= c.share
  {
    forall i :: 0 <= i < |es| ==> i + 1 + B.Depth(c.share, es[i].size) <= MaxLocal(c)
  }

  predicate Steady(c: Config, th: Thread)
    requires SPLIT_RANGE_WORDS <= c.share
  {
    Limited(th.local)
    && match th.pc
       case Steal(_, _, count, max) => Counted(c, th.local, count, max)
       case Take(_, _, count, max, e) => WeightOf(c, th.local) == count <= max <= B.ENTRIES_TO_GET && e.size <= B.LONGEST
       case SetMark(n, j, _, _) => Shallow(c, th.local) && j < |Words(c, n)| && Words(c, n)[j] !in c.before
       case _ => Shallow(c, th.local)
  }

  ghost predicate AllSteady(c: Config, s: State)
    requires SPLIT_RANGE_WORDS <= c.share
  {
    && (forall i :: 0 <= i < |s.stack| && s.stack[i].Full? ==> s.stack[i].e.size <= B.LONGEST)
    && forall t :: t in s.threads ==> Steady(c, s.threads[t])
  }

  /** Nothing was marked, nothing was lost, and nothing will be for want of room. */
  ghost predicate Calm(c: Config, s: State) {
    && Sized(c) && !s.invalid && s.marked == c.before
    && AllSteady(c, s) && Potential(c, s) <= c.capacity
  }

  /** A step of thread t that leaves the global stack alone. */
  lemma CalmMove(c: Config, s: State, s': State, t: Tid)
    requires Calm(c, s) && t in s.threads && t in s'.threads
    requires s'.stack == s.stack && !s'.invalid && s'.marked == s.marked && s'.threads == s.threads[t := s'.threads[t]]
    requires Load(c, |s.threads|, s.stack, s'.threads[t]) <= Load(c, |s.threads|, s.stack, s.threads[t])
    requires Steady(c, s'.threads[t])
    ensures Calm(c, s')
  {
    hide Load, Steady;
    PotentialStep(c, s, s', t, 0);
  }

  lemma CalmStealEnd(c: Config, s: State, t: Tid)
    requires Calm(c, s) && t in s.threads && s.threads[t].pc.Steal?
    ensures Calm(c, Put(s, t, s.threads[t].(pc := Mark(c.credit), myFirst := s.threads[t].pc.p)))
  {
    var th := s.threads[t];
    assert Steady(c, th);
    StolenMarking(c, |s.threads|, th.local, th.pc.count, th.pc.max);
    StolenShallow(c, th.local);
    var s' := Put(s, t, th.(pc := Mark(c.credit), myFirst := th.pc.p));
    assert !s'.invalid && s'.marked == s.marked;
    hide Calm, Marking, Batch, Claims, Shallow, Counted;
    CalmMove(c, s, s', t);
  }

  lemma CalmStealFound(c: Config, s: State, t: Tid)
    requires Calm(c, s) && t in s.threads && s.threads[t].pc.Steal?
    requires s.threads[t].pc.p < |s.stack| && s.stack[s.threads[t].pc.p].Full? && s.threads[t].pc.count <= s.threads[t].pc.max
    ensures var Steal(p, top, count, max) := s.threads[t].pc;
      Calm(c, Put(s, t, s.threads[t].(pc := Take(p, top, count, max, s.stack[p].e))))
  {
    var Steal(p, top, count, max) := s.threads[t].pc;
    var th := s.threads[t];
    assert Steady(c, th);
    ClaimsWithout(c, |s.threads|, s.stack, p, -1);
    var s' := Put(s, t, th.(pc := Take(p, top, count, max, s.stack[p].e)));
    assert !s'.invalid && s'.marked == s.marked;
    assert s.stack[p].e.size <= B.LONGEST;
    hide Calm, Batch, Claims, TakenOf, WeightOf;
    CalmMove(c, s, s', t);
  }

  lemma CalmSteal(c: Config, s: State, t: Tid)
    requires Calm(c, s) && t in s.threads && s.threads[t].pc.Steal?
    ensures Calm(c, RunStep(c, s, t))
  {
    var Steal(p, top, count, max) := s.threads[t].pc;
    assert Steady(c, s.threads[t]);
    if top <= p || max < count || |s.stack| <= p {
      CalmStealEnd(c, s, t);
    } else if s.stack[p].Full? {
      CalmStealFound(c, s, t);
    } else {
      var s' := RunStep(c, s, t);
      assert !s'.invalid && s'.marked == s.marked;
      hide Calm, Batch, Claims, WeightOf;
      CalmMove(c, s, s', t);
    }
  }

  lemma StolenShallow(c: Config, es: seq<Entry>)
    requires SPLIT_RANGE_WORDS <= c.share && Limited(es) && |es| <= B.ENTRIES_TO_GET + 1
    ensures Shallow(c, es)
  {
    forall i | 0 <= i < |es| ensures i + 1 + B.Depth(c.share, es[i].size) <= MaxLocal(c) {
      B.DepthMonotone(c.share, es[i].size, B.LONGEST);
    }
  }

  /** The thread that takes entry p counts for it now; it did so before. */
  lemma TakeLoad(c: Config, k: nat, s: State, t: Tid)
    requires t in s.threads && s.threads[t].pc.Take? && s.threads[t].pc.p < |s.stack|
    ensures Load(c, k, RunStep(c, s, t).stack, RunStep(c, s, t).threads[t]) <= Load(c, k, s.stack, s.threads[t])
  {
    var th, th' := s.threads[t], RunStep(c, s, t).threads[t];
    assert th'.local[..|th'.local| - 1] == th.local;
    ClaimsWithout(c, k, s.stack, th.pc.p, th.pc.p);
    hide Claims, TakenOf;
  }

  lemma TakeSteady(c: Config, s: State, t: Tid)
    requires Calm(c, s) && t in s.threads && s.threads[t].pc.Take?
    ensures AllSteady(c, RunStep(c, s, t))
  {
    var th, th' := s.threads[t], RunStep(c, s, t).threads[t];
    assert th'.local[..|th'.local| - 1] == th.local;
    assert Steady(c, th);
    assert Steady(c, th') by { hide Calm; }
    hide Steady, Potential;
  }

  lemma CalmTake(c: Config, s: State, t: Tid)
    requires Calm(c, s) && Inv(c, s) && t in s.threads && s.threads[t].pc.Take?
    ensures Calm(c, RunStep(c, s, t))
  {
    var k, p := |s.threads|, s.threads[t].pc.p;
    var s' := RunStep(c, s, t);
    assert ThreadOk(c, s, s.threads[t]);
    forall u | u in s.threads && u != t ensures Load(c, k, s'.stack, s'.threads[u]) <= Load(c, k, s.stack, s.threads[u]) {
      ClaimsWithout(c, k, s.stack, p, InTaking(s.threads[u].pc));
    }
    assert s'.marked == s.marked && s'.invalid == s.invalid && |s'.stack| == |s.stack| && s'.threads.Keys == s.threads.Keys;
    hide Inv, Load, RunStep, AllSteady;
    TakeLoad(c, k, s, t);
    TakeSteady(c, s, t);
    PotentialStep(c, s, s', t, 0);
  }

  lemma NextShallow(c: Config, th: Thread)
    requires SPLIT_RANGE_WORDS <= c.share && th.pc.Mark? && th.local != [] && Shallow(c, th.local) && Limited(th.local)
    ensures var th' := NextEntry(c, th); Shallow(c, th'.local) && Limited(th'.local)
  {
    var k, th' := |th.local| - 1, NextEntry(c, th);
    var e := th.local[k];
    if th'.pc.Mark? {
      B.DepthMonotone(c.share, Upper(e).size, Lower(e).size);
    } else if |th'.local| == k + 1 {
      B.DepthMonotone(c.share, th'.local[k].size, e.size);
    }
    forall i | 0 <= i < |th'.local| ensures th'.local[i].size <= B.LONGEST && i + 1 + B.Depth(c.share, th'.local[i].size) <= MaxLocal(c) {
      if i < k { assert th'.local[i] == th.local[i]; }
    }
  }

  lemma CalmMark(c: Config, s: State, t: Tid)
    requires Calm(c, s) && Inv(c, s) && t in s.threads && s.threads[t].pc.Mark?
    ensures Calm(c, RunStep(c, s, t))
  {
    var k, th := |s.threads|, s.threads[t];
    var s' := RunStep(c, s, t);
    assert Steady(c, th);
    assert 1 <= k by { SomeMember(s.threads.Keys, t); }
    if th.local != [] {
      var i := |th.local| - 1;
      assert |th.local| + B.Depth(c.share, th.local[i].size) <= MaxLocal(c);
      if 0 <= th.pc.credit {
        NextShallow(c, th);
        NextMarking(c, k, th);
        NextPc(c, th);
      }
    }
    hide Inv, Calm, NextEntry, Chain, Total, Claims, Shallow, MaxLocal;
    CalmMove(c, s, s', t);
  }

  lemma NextPc(c: Config, th: Thread)
    requires th.pc.Mark? && th.local != []
    ensures NextEntry(c, th).pc.Mark? || NextEntry(c, th).pc.Scan?
  {
  }

  /** The state after the lower part of a local stack was returned. */
  function ShareStep(c: Config, s: State, t: Tid): State
    requires t in s.threads
  {
    var th := s.threads[t];
    var n := ToShare(th);
    Put(s, t, th.(pc := Mark(c.credit), local := th.local[n..]))
     .(stack := s.stack + seq(n, i requires 0 <= i < n => Full(th.local[i])))
  }

  lemma ShareLoad(c: Config, s: State, t: Tid)
    requires t in s.threads && s.threads[t].pc.Share? && 3 <= |s.threads[t].local|
    ensures var k, th := |s.threads|, s.threads[t];
      Own(c, k, ShareStep(c, s, t).threads[t]) + ToShare(th) + k * Batch(c, k, th.local[..ToShare(th)]) <= Own(c, k, th)
  {
    var k, th := |s.threads|, s.threads[t];
    assert 1 <= k by { SomeMember(s.threads.Keys, t); }
    ChainSplit(c, k, th.local, ToShare(th));
    MarkingBelow(c, k, th.local[ToShare(th)..], c.credit);
    hide Chain, Marking;
  }

  lemma ShareClaims(c: Config, k: nat, s: State, t: Tid, except: int)
    requires t in s.threads && except < |s.stack|
    ensures var th := s.threads[t];
      Claims(c, k, ShareStep(c, s, t).stack, except) == Claims(c, k, s.stack, except) + Batch(c, k, th.local[..ToShare(th)])
  {
    var th := s.threads[t];
    ClaimsConcat(c, k, s.stack, th.local[..ToShare(th)], ShareStep(c, s, t).stack[|s.stack|..], except);
  }

  lemma ShareSteady(c: Config, s: State, t: Tid)
    requires Calm(c, s) && t in s.threads && s.threads[t].pc.Share?
    ensures AllSteady(c, ShareStep(c, s, t))
  {
    var th, s' := s.threads[t], ShareStep(c, s, t);
    assert Steady(c, th);
    assert Steady(c, s'.threads[t]) by {
      forall i | 0 <= i < |s'.threads[t].local| ensures s'.threads[t].local[i] == th.local[i + ToShare(th)] {}
    }
    hide Steady, Potential;
  }

  lemma SharePotential(c: Config, s: State, t: Tid)
    requires Inv(c, s) && t in s.threads && s.threads[t].pc.Share?
    ensures Potential(c, ShareStep(c, s, t)) <= Potential(c, s)
  {
    var k, s' := |s.threads|, ShareStep(c, s, t);
    var d := Batch(c, k, s.threads[t].local[..ToShare(s.threads[t])]);
    forall u | u in s.threads ensures Claims(c, k, s'.stack, InTaking(s.threads[u].pc)) == Claims(c, k, s.stack, InTaking(s.threads[u].pc)) + d {
      assert ThreadOk(c, s, s.threads[u]);
      ShareClaims(c, k, s, t, InTaking(s.threads[u].pc));
    }
    assert ThreadOk(c, s, s.threads[t]);
    hide Inv, ThreadOk, Claims, Batch;
    ShareLoad(c, s, t);
    assert |s'.stack| == |s.stack| + ToShare(s.threads[t]) && s'.threads.Keys == s.threads.Keys;
    hide Own, ToShare;
    PotentialStep(c, s, s', t, d);
  }

  lemma OwnWithin(c: Config, s: State, t: Tid)
    requires Calm(c, s) && t in s.threads
    ensures |s.stack| + Own(c, |s.threads|, s.threads[t]) <= c.capacity
  {
    LoadsWith(c, |s.threads|, s.stack, s.threads, s.threads.Keys, t);
    hide Own, AllSteady, Claims;
  }

  /** Sharing when there is room for it. */
  lemma ShareDeposits(c: Config, s: State, t: Tid)
    requires t in s.threads && s.threads[t].pc.Share? && 3 <= |s.threads[t].local|
    requires !NoRoom(c, s, ToShare(s.threads[t]))
    ensures RunStep(c, s, t) == ShareStep(c, s, t)
  {
    var th := s.threads[t];
    var n := ToShare(th);
    var given := th.local[..n];
    assert RunStep(c, s, t) == Deposit(c, Put(s, t, th.(pc := Mark(c.credit), local := th.local[n..])), given);
    hide RunStep;
    assert |given| == n;
    assert seq(n, i requires 0 <= i < n => Full(given[i])) == seq(n, i requires 0 <= i < n => Full(th.local[i]));
  }

  lemma ShareRoom(c: Config, s: State, t: Tid)
    requires Calm(c, s) && t in s.threads && s.threads[t].pc.Share? && 3 <= |s.threads[t].local|
    ensures RunStep(c, s, t) == ShareStep(c, s, t)
  {
    hide Calm, Own, RunStep, ShareStep, Batch;
    OwnWithin(c, s, t);
    ShareLoad(c, s, t);
    ShareDeposits(c, s, t);
  }

  lemma CalmShare(c: Config, s: State, t: Tid)
    requires Calm(c, s) && Inv(c, s) && t in s.threads && s.threads[t].pc.Share?
    ensures Calm(c, RunStep(c, s, t))
  {
    assert ThreadOk(c, s, s.threads[t]);
    ShareRoom(c, s, t);
    ShareSteady(c, s, t);
    SharePotential(c, s, t);
    assert ShareStep(c, s, t).marked == s.marked && ShareStep(c, s, t).invalid == s.invalid;
    hide Inv, ShareStep, RunStep, AllSteady, Potential;
  }

  /** The loads and tests before entries are shared, and those of a thread that looks for work. */
  predicate Quiet(pc: Pc) { !pc.Outside? && !pc.Steal? && !pc.Take? && !pc.Mark? && !pc.Scan? && !pc.SetMark? && !pc.Share? }

  predicate QuietNext(c: Config, pc: Pc, local: seq<Entry>) {
    || Quiet(pc) || pc.Outside? || pc == Mark(c.credit) || pc.Share?
    || (pc.Steal? && local == [] && pc.count == 0 && pc.max <= B.ENTRIES_TO_GET)
  }

  ghost predicate QuietMove(c: Config, s: State, s': State, t: Tid) {
    && t in s.threads && t in s'.threads && s'.threads == s.threads[t := s'.threads[t]]
    && s'.marked == s.marked && s'.stack == s.stack && s'.invalid == s.invalid
    && s'.threads[t].local == s.threads[t].local && QuietNext(c, s'.threads[t].pc, s.threads[t].local)
  }

  lemma QuietWait(c: Config, s: State, s0: State, t: Tid)
    requires t in s.threads && s0 == s.(active := s0.active)
    ensures QuietMove(c, s, AfterWait(c, s0, t), t)
  {
  }

  lemma QuietSearch(c: Config, s: State, t: Tid)
    requires t in s.threads && s.threads[t].local == []
    requires var pc := s.threads[t].pc; pc.Entering? || pc.LoopHead? || pc.Compare? || pc.ReadTop? || pc.LockedCheck? || pc.Waiting?
    ensures QuietMove(c, s, RunStep(c, s, t), t)
  {
    var pc := s.threads[t].pc;
    if pc.Waiting? { QuietWait(c, s, s, t); } else if pc.LockedCheck? { QuietWait(c, s, s.(active := s.active - 1), t); }
    hide AfterWait;
  }

  lemma QuietShare(c: Config, s: State, t: Tid)
    requires t in s.threads
    requires var pc := s.threads[t].pc; pc.ShareTop? || pc.ShareFirst? || pc.ShareActive? || pc.ShareHelpers?
    ensures QuietMove(c, s, RunStep(c, s, t), t)
  {
  }

  lemma QuietStep(c: Config, s: State, t: Tid)
    requires Inv(c, s) && t in s.threads && Quiet(s.threads[t].pc)
    ensures QuietMove(c, s, RunStep(c, s, t), t)
  {
    var pc := s.threads[t].pc;
    assert ThreadOk(c, s, s.threads[t]);
    hide RunStep, QuietMove, Inv, TakenBelow;
    if pc.ShareTop? || pc.ShareFirst? || pc.ShareActive? || pc.ShareHelpers? { QuietShare(c, s, t); } else { QuietSearch(c, s, t); }
  }

  lemma QuietLoad(c: Config, k: nat, th: Thread, pc: Pc, myFirst: nat)
    requires Sized(c) && 1 <= k && Quiet(th.pc) && Steady(c, th) && QuietNext(c, pc, th.local)
    ensures Own(c, k, th.(pc := pc, myFirst := myFirst)) <= Own(c, k, th) && Steady(c, th.(pc := pc, myFirst := myFirst))
  {
    MarkingBelow(c, k, th.local, c.credit);
    hide Shallow, Marking, Below, Words;
  }

  lemma CalmQuiet(c: Config, s: State, t: Tid)
    requires Calm(c, s) && Inv(c, s) && t in s.threads && Quiet(s.threads[t].pc)
    ensures Calm(c, RunStep(c, s, t))
  {
    var k, th, s' := |s.threads|, s.threads[t], RunStep(c, s, t);
    QuietStep(c, s, t);
    assert 1 <= k by { SomeMember(s.threads.Keys, t); }
    assert !s'.invalid && Steady(c, th) && Sized(c);
    hide Inv, Calm, RunStep, Claims, Own, Steady, Sized;
    QuietLoad(c, k, th, s'.threads[t].pc, s'.threads[t].myFirst);
    assert s'.threads[t] == th.(pc := s'.threads[t].pc, myFirst := s'.threads[t].myFirst);
    CalmMove(c, s, s', t);
  }

  lemma CalmScan(c: Config, s: State, t: Tid)
    requires Calm(c, s) && t in s.threads && (s.threads[t].pc.Scan? || s.threads[t].pc.SetMark?) && RunStep(c, s, t).marked == c.before
    ensures Calm(c, RunStep(c, s, t))
  {
    var th, s' := s.threads[t], RunStep(c, s, t);
    assert Steady(c, th);
    assert th.pc.Scan?;
    assert s'.threads[t].local == th.local && s'.marked == s.marked && s'.stack == s.stack && !s'.invalid;
    hide Claims, Shallow, Marking, MaxLocal;
    assert Steady(c, s'.threads[t]);
    assert Load(c, |s.threads|, s.stack, s'.threads[t]) <= Load(c, |s.threads|, s.stack, th);
    hide Calm, RunStep, Steady, Load;
    CalmMove(c, s, s', t);
  }

  /** A step that marks nothing new loses nothing. */
  lemma StepCalm(c: Config, s: State, a: Action)
    requires Calm(c, s) && Inv(c, s) && Enabled(c, s, a) && Apply(c, s, a).marked == c.before
    ensures Calm(c, Apply(c, s, a))
  {
    match a
    case Start => CalmEnter(c, s, Apply(c, s, a), c.initiator);
    case Join(t) => CalmEnter(c, s, Apply(c, s, a), t);
    case Run(t) =>
      var pc := s.threads[t].pc;
      hide Calm, RunStep, Inv;
      if pc.Steal? { CalmSteal(c, s, t); }
      else if pc.Take? { CalmTake(c, s, t); }
      else if pc.Mark? { CalmMark(c, s, t); }
      else if pc.Share? { CalmShare(c, s, t); }
      else if pc.Scan? || pc.SetMark? { CalmScan(c, s, t); }
      else { CalmQuiet(c, s, t); }
    case _ => hide AllSteady, Loads;
  }

  lemma CalmEnter(c: Config, s: State, s': State, t: Tid)
    requires Calm(c, s) && t in s.threads && s.threads[t].pc == Outside && s'.threads == s.threads[t := s.threads[t].(pc := Entering)]
    requires s'.stack == s.stack && s'.marked == s.marked && s'.invalid == s.invalid
    ensures Calm(c, s')
  {
    assert Steady(c, s.threads[t]);
    assert !s'.invalid;
    hide Calm, Shallow, Chain, Claims;
    CalmMove(c, s, s', t);
  }

  // ---------- whole runs ----------

  lemma {:induction false} LoadsAtStart(c: Config, k: nat, stack: seq<Slot>, threads: map<Tid, Thread>, ts: set<Tid>)
    requires ts <= threads.Keys && forall t :: t in ts ==> threads[t] == Thread(Outside, 0, [])
    ensures Loads(c, k, stack, threads, ts) == |ts| * Claims(c, k, stack, -1)
  {
    if ts != {} {
      var t :| t in ts;
      LoadsWith(c, k, stack, threads, ts, t);
      LoadsAtStart(c, k, stack, threads, ts - {t});
      assert |ts| == |ts - {t}| + 1;
      Distribute(|ts - {t}|, Claims(c, k, stack, -1));
    }
  }

  ghost predicate Ranges(stack: seq<Slot>) {
    forall i :: 0 <= i < |stack| && stack[i].Full? ==> stack[i].e.size <= B.LONGEST
  }

  lemma StartCalm(c: Config, s: State)
    requires Initial(c, s) && Sized(c) && Ranges(s.stack) && StackBound(c, |s.threads|, s.stack) <= c.capacity
    ensures Calm(c, s)
  {
    LoadsAtStart(c, |s.threads|, s.stack, s.threads, s.threads.Keys);
    assert |s.threads| == |s.threads.Keys|;
    hide Claims;
  }

  /** As long as nothing is marked, the global stack does not grow above its bound, and nothing is lost. */
  lemma {:induction false} RunCalm(c: Config, states: seq<State>, actions: seq<Action>, n: nat)
    requires IsRun(c, states, actions) && n <= |actions| && Sized(c) && Ranges(states[0].stack)
    requires StackBound(c, |states[0].threads|, states[0].stack) <= c.capacity
    requires states[n].marked == c.before
    ensures Calm(c, states[n])
  {
    hide Calm, Inv, Apply, Enabled, StackBound, Ranges, Initial, Sized;
    if n == 0 {
      StartCalm(c, states[0]);
    } else {
      StepAt(c, states, actions, n - 1);
      StepGrows(c, states[n - 1], actions[n - 1]);
      RunCalm(c, states, actions, n - 1);
      StepCalm(c, states[n - 1], actions[n - 1]);
    }
  }

  /**
   Parallel marking never comes out invalid without having marked anything, if the global mark stack has room for
   what splitting the ranges on it can come to.  Ranges of 4 GB and more, whose half size overflows an int, are
   not considered.
   */
  lemma NeverFruitless(c: Config, states: seq<State>, actions: seq<Action>, n: nat)
    requires IsRun(c, states, actions) && n <= |actions| && Sized(c) && Ranges(states[0].stack)
    requires StackBound(c, |states[0].threads|, states[0].stack) <= c.capacity
    ensures states[n].marked == c.before ==> !states[n].invalid && |states[n].stack| <= c.capacity
  {
    if states[n].marked == c.before { RunCalm(c, states, actions, n); }
  }

  // ---------- when a phase is fruitless ----------

  /** GC_return_mark_stack is called and finds no room. */
  predicate Refused(c: Config, s: State, a: Action) {
    a.Run? && a.t in s.threads
    && var th := s.threads[a.t];
       || (th.pc.Share? && NoRoom(c, s, ToShare(th)))
       || (th.pc.Mark? && th.local != [] && th.pc.credit < 0 && c.localSize / 2 <= |th.local| - 1 && NoRoom(c, s, |th.local|))
  }

  /** What a thread is about to mark was not marked before. */
  ghost predicate Fresh(c: Config, s: State) {
    forall t :: t in s.threads ==> FreshPc(c, s.threads[t].pc)
  }

  predicate FreshPc(c: Config, pc: Pc) {
    pc.SetMark? && pc.j < |Words(c, pc.n)| ==> Words(c, pc.n)[pc.j] !in c.before
  }

  lemma StepFresh(c: Config, s: State, a: Action)
    requires Fresh(c, s) && Enabled(c, s, a) && c.before <= s.marked
    ensures Fresh(c, Apply(c, s, a))
  {
    if a.Run? { RunFresh(c, s, a.t); }
    hide RunStep;
  }

  lemma RunFresh(c: Config, s: State, t: Tid)
    requires Fresh(c, s) && t in s.threads && s.threads[t].pc != Outside && c.before <= s.marked
    ensures Fresh(c, RunStep(c, s, t))
  {
    OnlyThread(c, s, t);
    var s' := RunStep(c, s, t);
    if s.threads[t].pc.Scan? {
      assert FreshPc(c, s'.threads[t].pc);
    } else {
      ScanBefore(c, s, t);
    }
    hide RunStep;
  }

  lemma OnlyThread(c: Config, s: State, t: Tid)
    requires t in s.threads && s.threads[t].pc != Outside
    ensures var s' := RunStep(c, s, t); forall u :: u in s'.threads ==> u in s.threads && (u == t || s'.threads[u] == s.threads[u])
  {
    hide NextEntry, PushLocal, StartSteal, ToShare;
    if s.threads[t].pc.Waiting? || s.threads[t].pc.LockedCheck? { WaitStepCases(c, s, t); hide AfterWait; }
  }

  /** Only a scan leads to setting a mark. */
  lemma ScanBefore(c: Config, s: State, t: Tid)
    requires t in s.threads && s.threads[t].pc != Outside && !s.threads[t].pc.Scan?
    ensures t in RunStep(c, s, t).threads && !RunStep(c, s, t).threads[t].pc.SetMark?
  {
    hide PushLocal;
  }

  lemma RunInvalid(c: Config, s: State, t: Tid)
    requires t in s.threads && s.threads[t].pc != Outside && FreshPc(c, s.threads[t].pc) && RunStep(c, s, t).marked == c.before
    ensures RunStep(c, s, t).invalid <==> s.invalid || Refused(c, s, Run(t))
  {
    hide NextEntry, PushLocal, StartSteal;
  }

  lemma {:induction false} RunIsFresh(c: Config, states: seq<State>, actions: seq<Action>, n: nat)
    requires IsRun(c, states, actions) && n <= |actions|
    ensures Fresh(c, states[n]) && c.before <= states[n].marked
  {
    if n != 0 {
      RunIsFresh(c, states, actions, n - 1);
      StepFresh(c, states[n - 1], actions[n - 1]);
      StepGrows(c, states[n - 1], actions[n - 1]);
    }
  }

  /** A phase that marks nothing becomes invalid just if some thread finds no room for entries it returns. */
  lemma {:induction false} FruitlessIffRefused(c: Config, states: seq<State>, actions: seq<Action>, n: nat)
    requires IsRun(c, states, actions) && n <= |actions| && states[n].marked == c.before
    ensures states[n].invalid <==> exists i :: 0 <= i < n && Refused(c, states[i], actions[i])
  {
    if n != 0 {
      var s, a := states[n - 1], actions[n - 1];
      RunIsFresh(c, states, actions, n - 1);
      assert states[n] == Apply(c, s, a) && Enabled(c, s, a);
      hide Refused, RunStep, Fresh;
      StepGrows(c, s, a);
      FruitlessIffRefused(c, states, actions, n - 1);
      if a.Run? {
        assert FreshPc(c, s.threads[a.t].pc) by { StepFreshAt(c, s, a.t); }
        RunInvalid(c, s, a.t);
      } else {
        assert !Refused(c, s, a) by { NotRefused(c, s, a); }
      }
    }
  }

  lemma NotRefused(c: Config, s: State, a: Action)
    requires !a.Run?
    ensures !Refused(c, s, a)
  {
  }

  lemma StepFreshAt(c: Config, s: State, t: Tid)
    requires Fresh(c, s) && t in s.threads
    ensures FreshPc(c, s.threads[t].pc)
  {
  }

  lemma {:induction false} NoClaims(c: Config, k: nat, stack: seq<Slot>)
    requires forall i :: 0 <= i < |stack| && stack[i].Full? ==> stack[i].e.size <= c.share
    ensures Claims(c, k, stack, -1) == 0
  {
    if stack != [] { NoClaims(c, k, stack[..|stack| - 1]); }
  }

  /** If all ranges on the mark stack are at most SHARE_BYTES long, every phase that becomes invalid has marked something. */
  lemma ShortNeverFruitless(c: Config, states: seq<State>, actions: seq<Action>, n: nat)
    requires IsRun(c, states, actions) && n <= |actions| && Sized(c) && |states[0].stack| <= c.capacity
    requires c.share <= B.LONGEST
    requires forall i :: 0 <= i < |states[0].stack| && states[0].stack[i].Full? ==> states[0].stack[i].e.size <= c.share
    ensures states[n].invalid ==> states[n].marked != c.before
  {
    NoClaims(c, |states[0].threads|, states[0].stack);
    NeverFruitless(c, states, actions, n);
  }
}
