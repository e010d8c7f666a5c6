/**
Parallel marking ends.  Every step of a thread that does more than wait again lowers a measure, so that under any
schedule which does not for ever give turns to waiting threads only, GC_do_parallel_mark returns.
 */
module ParallelEnds {
  import opened ParallelMark

  // ---------- sums over threads ----------

  ghost function Sum(ts: set<Tid>, f: Tid -> nat): nat {
    if ts == {} then 0
    else
      var t :| t in ts;
      f(t) + Sum(ts - {t}, f)
  }

  lemma {:induction false} SumWith(ts: set<Tid>, f: Tid -> nat, t: Tid)
    requires t in ts
    ensures Sum(ts, f) == f(t) + Sum(ts - {t}, f)
  {
    var t0 :| t0 in ts && Sum(ts, f) == f(t0) + Sum(ts - {t0}, f);
    if t0 != t {
      SumWith(ts - {t0}, f, t);
      SumWith(ts - {t}, f, t0);
      assert ts - {t0} - {t} == ts - {t} - {t0};
    }
  }

  lemma {:induction false} SumAtMost(ts: set<Tid>, f: Tid -> nat, g: Tid -> nat)
    requires forall t :: t in ts ==> f(t) <= g(t)
    ensures Sum(ts, f) <= Sum(ts, g)
  {
    if ts != {} {
      var t :| t in ts;
      SumWith(ts, f, t);
      SumWith(ts, g, t);
      SumAtMost(ts - {t}, f, g);
    }
  }

  lemma SumLess(ts: set<Tid>, f: Tid -> nat, g: Tid -> nat, t: Tid)
    requires t in ts && f(t) < g(t) && forall u :: u in ts ==> f(u) <= g(u)
    ensures Sum(ts, f) < Sum(ts, g)
  {
    SumWith(ts, f, t);
    SumWith(ts, g, t);
    SumAtMost(ts - {t}, f, g);
  }

  // ---------- what is left to scan ----------

  /** Bounds the steps for a range: twice its words, and what splitting and cutting it takes. */
  function Rounds(size: nat): nat { if size < SPLIT_RANGE_WORDS then 2 * size + 2 else 3 * size - 4 }

  function AllRounds(es: seq<Entry>): nat {
    if es == [] then 0 else AllRounds(es[..|es| - 1]) + Rounds(es[|es| - 1].size)
  }

  function ToScan(j: nat, end: nat): nat { if j < end then 2 * (end - j) else 0 }

  /** For what the thread holds. */
  function Held(th: Thread): nat {
    AllRounds(th.local) +
    match th.pc
    case Take(_, _, _, _, e) => Rounds(e.size)
    case Scan(_, j, end, _) => ToScan(j, end) + 1
    case SetMark(_, j, end, _) => ToScan(j, end)
    case _ => 0
  }

  /** For the entries of the global stack that the thread may still take. */
  function Open(stack: seq<Slot>, except: int): nat {
    if stack == [] then 0
    else
      var i := |stack| - 1;
      Open(stack[..i], except) + (if stack[i].Full? && i != except then Rounds(stack[i].e.size) else 0)
  }

  function Taking(pc: Pc): int { if pc.Take? then pc.p else -1 }

  function WorkOf(stack: seq<Slot>, th: Thread): nat { Held(th) + Open(stack, Taking(th.pc)) }

  // ---------- looking for work ----------

  /** At the head of the loop of GC_mark_local, with GC_first_nonempty and the size n of the global stack. */
  function Head(first: nat, n: nat, m: nat): nat { if first < m || n < first then 2 else 2 * (n - first) + 8 }

  /** More than one turn of the loop takes. */
  function Again(n: nat): nat { 2 * n + 10 }

  /** About to look at the entries from m on. */
  function Look(first: nat, n: nat, m: nat): nat { (if m <= n then 2 * (n - m) else 0) + 6 + (if m < first then Again(n) else 0) }

  function Max(a: nat, b: nat): nat { if a < b then b else a }

  /** How many steps the thread makes at most before it waits, finds work, or moves GC_first_nonempty on. */
  function Search(first: nat, n: nat, th: Thread): nat {
    match th.pc
    case Outside => 0
    case Entering => Head(first, n, first) + 1
    case LoopHead => Head(first, n, th.myFirst)
    case Compare(g) => if g < th.myFirst && g == first then 1 else Look(first, n, Max(g, th.myFirst)) + 1
    case ReadTop => Look(first, n, th.myFirst)
    case LockedCheck => Look(first, n, th.myFirst) - 1
    case Waiting => if first < n then Head(first, n, first) + 1 else 1
    case Steal(p, top, count, max) =>
      (if p <= top then 2 * (top - p) else 0) + 4 + (if first < p || (p == first && count <= max && p < top) then 0 else Again(n))
    case Take(p, top, _, _, _) => (if p <= top then 2 * (top - p) else 0) + 3 + (if first <= p then 0 else Again(n))
    case Mark(credit) => if th.local == [] then Head(first, n, th.myFirst) + 1 else if 0 <= credit then 3 else 9
    case Scan(_, _, _, _) => 0
    case SetMark(_, _, _, _) => 0
    case ShareTop => 8
    case ShareFirst(_) => 7
    case ShareActive => 6
    case ShareHelpers(_) => 5
    case Share => 4
  }

  // ---------- the measure ----------

  function Stage(p: Progress): nat {
    match p
    case NotStarted => 4
    case Marking => 3
    case Left => 2
    case Draining => 1
    case Returned => 0
  }

  /** About to set a mark that another thread has set in the meantime. */
  predicate IsLate(c: Config, s: State, t: Tid) {
    t in s.threads && s.threads[t].pc.SetMark? && s.threads[t].pc.j < |Words(c, s.threads[t].pc.n)|
    && Words(c, s.threads[t].pc.n)[s.threads[t].pc.j] in s.marked
  }

  ghost function LateThreads(c: Config, s: State): set<Tid> { set t | t in s.threads && IsLate(c, s, t) }

  ghost function Room(c: Config, s: State): nat { if |s.stack| <= c.capacity then c.capacity - |s.stack| else 0 }

  ghost function Behind(s: State): nat { if s.first <= |s.stack| then |s.stack| - s.first else 0 }

  ghost function WorkAt(s: State): Tid -> nat { (t: Tid) => if t in s.threads then WorkOf(s.stack, s.threads[t]) else 0 }

  ghost function SearchAt(s: State): Tid -> nat { (t: Tid) => if t in s.threads then Search(s.first, |s.stack|, s.threads[t]) else 0 }

  ghost function TotalWork(s: State): nat { Sum(s.threads.Keys, WorkAt(s)) }

  ghost function TotalSearch(s: State): nat { Sum(s.threads.Keys, SearchAt(s)) }

  datatype Measure = Measure(stage: nat, away: nat, unmarked: nat, late: nat, room: nat, work: nat, behind: nat, search: nat)

  ghost function MeasureOf(c: Config, s: State): Measure {
    Measure(Stage(s.progress), |s.threads.Keys - s.joined|, |c.objects - s.marked|, |LateThreads(c, s)|, Room(c, s),
            TotalWork(s), Behind(s), TotalSearch(s))
  }

  /** The lexicographic order. */
  predicate Less(m: Measure, n: Measure) {
    || m.stage < n.stage
    || (m.stage == n.stage && m.away < n.away)
    || (m.stage == n.stage && m.away == n.away && m.unmarked < n.unmarked)
    || (m.stage == n.stage && m.away == n.away && m.unmarked == n.unmarked && LessRest(m, n))
  }

  predicate LessRest(m: Measure, n: Measure) {
    || m.late < n.late
    || (m.late == n.late && m.room < n.room)
    || (m.late == n.late && m.room == n.room && m.work < n.work)
    || (m.late == n.late && m.room == n.room && m.work == n.work
        && (m.behind < n.behind || (m.behind == n.behind && m.search < n.search)))
  }

  // ---------- steps of one thread ----------

  /** Only thread t changes, and nothing is marked. */
  ghost predicate OneMoves(s: State, s': State, t: Tid) {
    && t in s.threads && s'.threads.Keys == s.threads.Keys && (forall u :: u in s.threads && u != t ==> s'.threads[u] == s.threads[u])
    && s'.joined == s.joined && s'.marked == s.marked && Stage(s'.progress) <= Stage(s.progress)
  }

  lemma LateSame(c: Config, s: State, s': State, t: Tid)
    requires OneMoves(s, s', t) && !s.threads[t].pc.SetMark? && (s'.threads[t].pc.SetMark? ==> !IsLate(c, s', t))
    ensures LateThreads(c, s') == LateThreads(c, s)
  {
    forall u ensures u in LateThreads(c, s') <==> u in LateThreads(c, s) {
      if u in s.threads && u != t { assert IsLate(c, s', u) <==> IsLate(c, s, u); }
    }
  }

  lemma WorkNoMore(s: State, s': State, t: Tid)
    requires t in s.threads && s'.threads.Keys == s.threads.Keys
    requires forall u :: u in s.threads && u != t ==> WorkOf(s'.stack, s'.threads[u]) <= WorkOf(s.stack, s.threads[u])
    requires WorkOf(s'.stack, s'.threads[t]) <= WorkOf(s.stack, s.threads[t])
    ensures TotalWork(s') <= TotalWork(s)
    ensures WorkOf(s'.stack, s'.threads[t]) < WorkOf(s.stack, s.threads[t]) ==> TotalWork(s') < TotalWork(s)
  {
    hide WorkOf;
    SumAtMost(s.threads.Keys, WorkAt(s'), WorkAt(s));
    if WorkOf(s'.stack, s'.threads[t]) < WorkOf(s.stack, s.threads[t]) { SumLess(s.threads.Keys, WorkAt(s'), WorkAt(s), t); }
  }

  lemma SearchLess(s: State, s': State, t: Tid)
    requires t in s.threads && s'.threads.Keys == s.threads.Keys && |s'.stack| == |s.stack| && s'.first == s.first
    requires forall u :: u in s.threads && u != t ==> s'.threads[u] == s.threads[u]
    requires Search(s.first, |s.stack|, s'.threads[t]) < Search(s.first, |s.stack|, s.threads[t])
    ensures TotalSearch(s') < TotalSearch(s)
  {
    hide Search;
    SumLess(s.threads.Keys, SearchAt(s'), SearchAt(s), t);
  }

  /** What comes first in the measure does not grow. */
  lemma HeadSame(c: Config, s: State, s': State, t: Tid)
    requires OneMoves(s, s', t) && !s.threads[t].pc.SetMark? && (s'.threads[t].pc.SetMark? ==> !IsLate(c, s', t))
    ensures HeadKept(MeasureOf(c, s'), MeasureOf(c, s))
  {
    LateSame(c, s, s', t);
    hide LateThreads, TotalWork, TotalSearch, Stage;
  }

  predicate HeadKept(m: Measure, n: Measure) {
    m.stage <= n.stage && m.away == n.away && m.unmarked == n.unmarked && m.late == n.late
  }

  lemma RestLess(m: Measure, n: Measure)
    requires HeadKept(m, n)
    requires || m.room < n.room || (m.room == n.room && m.work < n.work)
             || (m.room == n.room && m.work <= n.work && (m.behind < n.behind || (m.behind == n.behind && m.search < n.search)))
    ensures Less(m, n)
  {
  }

  /** A step that moves GC_first_nonempty on, or shortens the search, and adds no work. */
  lemma LowerBySearch(c: Config, s: State, s': State, t: Tid)
    requires OneMoves(s, s', t) && |s'.stack| == |s.stack| && !s.threads[t].pc.SetMark? && !s'.threads[t].pc.SetMark?
    requires forall u :: u in s.threads ==> WorkOf(s'.stack, s'.threads[u]) <= WorkOf(s.stack, s.threads[u])
    requires || (s.first < s'.first <= |s.stack|)
             || (s'.first == s.first && Search(s.first, |s.stack|, s'.threads[t]) < Search(s.first, |s.stack|, s.threads[t]))
    ensures Less(MeasureOf(c, s'), MeasureOf(c, s))
  {
    HeadSame(c, s, s', t);
    hide HeadKept, WorkOf, Search, LateThreads, TotalWork, TotalSearch, Less;
    WorkNoMore(s, s', t);
    if s'.first == s.first { SearchLess(s, s', t); }
    RestLess(MeasureOf(c, s'), MeasureOf(c, s));
  }

  lemma LowerByWork(c: Config, s: State, s': State, t: Tid)
    requires OneMoves(s, s', t) && s'.stack == s.stack && !s.threads[t].pc.SetMark? && (s'.threads[t].pc.SetMark? ==> !IsLate(c, s', t))
    requires WorkOf(s.stack, s'.threads[t]) < WorkOf(s.stack, s.threads[t])
    ensures Less(MeasureOf(c, s'), MeasureOf(c, s))
  {
    HeadSame(c, s, s', t);
    hide HeadKept, WorkOf, Search, LateThreads, TotalWork, TotalSearch, Less;
    WorkNoMore(s, s', t);
    RestLess(MeasureOf(c, s'), MeasureOf(c, s));
  }

  lemma LowerByRoom(c: Config, s: State, s': State, t: Tid)
    requires OneMoves(s, s', t) && !s.threads[t].pc.SetMark? && !s'.threads[t].pc.SetMark?
    requires |s.stack| < |s'.stack| <= c.capacity
    ensures Less(MeasureOf(c, s'), MeasureOf(c, s))
  {
    HeadSame(c, s, s', t);
    hide HeadKept, LateThreads, TotalWork, TotalSearch, Less;
    RestLess(MeasureOf(c, s'), MeasureOf(c, s));
  }

  // ---------- looking for work ----------

  /** The thread has nothing in hand: neither an entry it is taking nor a range it is scanning. */
  predicate EmptyHanded(pc: Pc) { !pc.Take? && !pc.Scan? && !pc.SetMark? }

  /** Thread t moves from one program point to another, and keeps its local stack. */
  ghost predicate Strolls(s: State, s': State, t: Tid) {
    && OneMoves(s, s', t) && s'.stack == s.stack && s'.threads[t].local == s.threads[t].local
    && EmptyHanded(s.threads[t].pc) && EmptyHanded(s'.threads[t].pc)
  }

  lemma StrollsWork(s: State, s': State, t: Tid)
    requires Strolls(s, s', t)
    ensures forall u :: u in s.threads ==> WorkOf(s'.stack, s'.threads[u]) <= WorkOf(s.stack, s.threads[u])
  {
    hide AllRounds, Open;
  }

  lemma StrollLower(c: Config, s: State, s': State, t: Tid)
    requires Strolls(s, s', t)
    requires || (s.first < s'.first <= |s.stack|)
             || (s'.first == s.first && Search(s.first, |s.stack|, s'.threads[t]) < Search(s.first, |s.stack|, s.threads[t]))
    ensures Less(MeasureOf(c, s'), MeasureOf(c, s))
  {
    StrollsWork(s, s', t);
    hide Search, WorkOf, MeasureOf, Less;
    LowerBySearch(c, s, s', t);
  }

  /** What the steps of t need to know of the rest. */
  ghost predicate InBounds(s: State, t: Tid)
    requires t in s.threads
  {
    && s.first <= |s.stack| && s.threads[t].myFirst <= |s.stack|
    && match s.threads[t].pc
       case Compare(g) => g <= |s.stack|
       case Steal(p, top, _, _) => p <= top <= |s.stack|
       case Take(p, top, _, _, _) => p < top <= |s.stack|
       case _ => true
  }

  lemma BoundsOk(c: Config, s: State, t: Tid)
    requires Inv(c, s) && t in s.threads && s.threads[t].pc != Outside
    ensures InBounds(s, t) && 0 <= s.active && (IsActive(s.threads[t].pc) ==> 1 <= s.active)
    ensures t == c.initiator ==> s.progress == Marking
  {
    assert ThreadOk(c, s, s.threads[t]);
    ActiveCounted(s, t, t);
  }

  lemma WaitStrolls(c: Config, s: State, t: Tid)
    requires t in s.threads && (s.threads[t].pc == Waiting || s.threads[t].pc == LockedCheck)
    requires t == c.initiator ==> s.progress == Marking
    ensures Strolls(s, WaitStep(c, s, t), t) && WaitStep(c, s, t).first == s.first
  {
    WaitStepCases(c, s, t);
    hide WaitStep;
  }

  lemma WaitSearch(c: Config, s: State, t: Tid)
    requires t in s.threads && (s.threads[t].pc == Waiting || s.threads[t].pc == LockedCheck)
    requires InBounds(s, t) && 0 <= s.active && (IsActive(s.threads[t].pc) ==> 1 <= s.active)
    requires s.threads[t].pc == LockedCheck ==> s.threads[t].myFirst == |s.stack|
    requires WaitStep(c, s, t) != s
    ensures Search(s.first, |s.stack|, WaitStep(c, s, t).threads[t]) < Search(s.first, |s.stack|, s.threads[t])
  {
    WaitStepCases(c, s, t);
    hide WaitStep;
    if s.threads[t].pc == Waiting && 0 < s.active && |s.stack| <= s.first { WaitStays(s, t); }
  }

  lemma WaitStays(s: State, t: Tid)
    requires t in s.threads && s.threads[t].pc == Waiting
    ensures Put(s, t, s.threads[t].(pc := Waiting)).(active := s.active) == s
  {
    assert s.threads[t := s.threads[t]] == s.threads;
  }

  lemma AfterWaitLower(c: Config, s: State, t: Tid)
    requires Inv(c, s) && t in s.threads && (s.threads[t].pc == Waiting || s.threads[t].pc == LockedCheck)
    requires s.threads[t].pc == LockedCheck ==> s.threads[t].myFirst == |s.stack|
    requires WaitStep(c, s, t) != s
    ensures Less(MeasureOf(c, WaitStep(c, s, t)), MeasureOf(c, s))
  {
    BoundsOk(c, s, t);
    hide Inv, InBounds, WaitStep, Strolls, Search, MeasureOf, Less;
    WaitStrolls(c, s, t);
    WaitSearch(c, s, t);
    StrollLower(c, s, WaitStep(c, s, t), t);
  }

  predicate Searches(pc: Pc) { pc.Entering? || pc.LoopHead? || pc.Compare? || pc.ReadTop? }

  lemma SearchStrolls(c: Config, s: State, t: Tid)
    requires t in s.threads && Searches(s.threads[t].pc)
    ensures Strolls(s, RunStep(c, s, t), t)
  {
  }

  /** GC_first_nonempty moves on, or the search of t gets shorter. */
  ghost predicate Nearer(s: State, s': State, t: Tid) {
    t in s.threads && t in s'.threads
    && (|| (s.first < s'.first <= |s.stack|)
        || (s'.first == s.first && Search(s.first, |s.stack|, s'.threads[t]) < Search(s.first, |s.stack|, s.threads[t])))
  }

  lemma CompareNearer(c: Config, s: State, t: Tid)
    requires t in s.threads && s.threads[t].pc.Compare? && InBounds(s, t)
    ensures Nearer(s, RunStep(c, s, t), t)
  {
  }

  lemma ReadTopNearer(c: Config, s: State, t: Tid)
    requires t in s.threads && s.threads[t].pc.ReadTop? && InBounds(s, t)
    ensures Nearer(s, RunStep(c, s, t), t)
  {
  }

  lemma HeadNearer(c: Config, s: State, t: Tid)
    requires t in s.threads && (s.threads[t].pc.LoopHead? || s.threads[t].pc.Entering?) && InBounds(s, t)
    ensures Nearer(s, RunStep(c, s, t), t)
  {
  }

  lemma SearchLower(c: Config, s: State, t: Tid)
    requires Inv(c, s) && t in s.threads && Searches(s.threads[t].pc)
    ensures Less(MeasureOf(c, RunStep(c, s, t)), MeasureOf(c, s))
  {
    BoundsOk(c, s, t);
    hide Inv, InBounds, RunStep, Strolls, Search, MeasureOf, Less;
    SearchStrolls(c, s, t);
    var pc := s.threads[t].pc;
    if pc.Compare? { CompareNearer(c, s, t); } else if pc.ReadTop? { ReadTopNearer(c, s, t); } else { HeadNearer(c, s, t); }
    StrollLower(c, s, RunStep(c, s, t), t);
  }

  lemma LockedNearer(c: Config, s: State, t: Tid)
    requires t in s.threads && s.threads[t].pc.LockedCheck? && InBounds(s, t) && |s.stack| != s.threads[t].myFirst
    ensures Strolls(s, RunStep(c, s, t), t) && Nearer(s, RunStep(c, s, t), t)
  {
  }

  lemma LockedLower(c: Config, s: State, t: Tid)
    requires Inv(c, s) && t in s.threads && s.threads[t].pc.LockedCheck?
    ensures Less(MeasureOf(c, RunStep(c, s, t)), MeasureOf(c, s))
  {
    if |s.stack| == s.threads[t].myFirst {
      WaitMoves(c, s, t);
      AfterWaitLower(c, s, t);
    } else {
      BoundsOk(c, s, t);
      hide Inv, InBounds, RunStep, Strolls, Search, MeasureOf, Less;
      LockedNearer(c, s, t);
      StrollLower(c, s, RunStep(c, s, t), t);
    }
  }

  lemma WaitMoves(c: Config, s: State, t: Tid)
    requires t in s.threads && s.threads[t].pc.LockedCheck?
    ensures WaitStep(c, s, t) != s
  {
    WaitStepCases(c, s, t);
    assert WaitStep(c, s, t).threads[t].pc != LockedCheck;
  }

  lemma StealLower(c: Config, s: State, t: Tid)
    requires Inv(c, s) && t in s.threads && s.threads[t].pc.Steal?
    ensures Less(MeasureOf(c, RunStep(c, s, t)), MeasureOf(c, s))
  {
    var Steal(p, top, count, max) := s.threads[t].pc;
    BoundsOk(c, s, t);
    hide Inv, InBounds, RunStep, Strolls, Search, WorkOf, MeasureOf, Less;
    if top <= p || max < count || |s.stack| <= p || s.stack[p] == Empty {
      StealStrolls(c, s, t);
      StrollLower(c, s, RunStep(c, s, t), t);
    } else {
      StealFoundNearer(c, s, t);
      StealFoundWork(c, s, t);
      LowerBySearch(c, s, RunStep(c, s, t), t);
    }
  }

  lemma StealStrolls(c: Config, s: State, t: Tid)
    requires t in s.threads && s.threads[t].pc.Steal? && InBounds(s, t)
    requires var Steal(p, top, count, max) := s.threads[t].pc; top <= p || max < count || |s.stack| <= p || s.stack[p] == Empty
    ensures Strolls(s, RunStep(c, s, t), t) && Nearer(s, RunStep(c, s, t), t)
  {
  }

  predicate Finds(s: State, th: Thread) {
    th.pc.Steal? && th.pc.p < th.pc.top && th.pc.count <= th.pc.max && th.pc.p < |s.stack| && s.stack[th.pc.p].Full?
  }

  lemma StealFoundNearer(c: Config, s: State, t: Tid)
    requires t in s.threads && Finds(s, s.threads[t]) && InBounds(s, t)
    ensures OneMoves(s, RunStep(c, s, t), t) && Nearer(s, RunStep(c, s, t), t)
  {
  }

  /** The thread takes over what the entry counts for. */
  lemma StealFoundWork(c: Config, s: State, t: Tid)
    requires t in s.threads && Finds(s, s.threads[t])
    ensures var s' := RunStep(c, s, t);
      s'.stack == s.stack && s'.threads[t].pc.Take?
      && forall u :: u in s.threads ==> WorkOf(s'.stack, s'.threads[u]) <= WorkOf(s.stack, s.threads[u])
  {
    OpenWithout(s.stack, s.threads[t].pc.p, -1);
    hide Open, AllRounds, Rounds;
  }

  /** Clearing entry p, or taking it, removes what it counts for. */
  lemma {:induction false} OpenWithout(stack: seq<Slot>, p: nat, except: int)
    requires p < |stack|
    ensures Open(stack[p := Empty], except) <= Open(stack, except)
    ensures Open(stack[p := Empty], p) == Open(stack, p)
    ensures Open(stack[p := Empty], -1) == Open(stack[p := Empty], p)
    ensures stack[p].Full? ==> Open(stack, -1) == Open(stack, p) + Rounds(stack[p].e.size)
  {
    var i := |stack| - 1;
    hide Rounds;
    assert stack[p := Empty][..i] == if p < i then stack[..i][p := Empty] else stack[..i];
    if p < i { OpenWithout(stack[..i], p, except); } else { OpenBelow(stack[..i], p); }
  }

  lemma {:induction false} OpenBelow(stack: seq<Slot>, p: nat)
    requires |stack| <= p
    ensures Open(stack, p) == Open(stack, -1)
  {
    if stack != [] { OpenBelow(stack[..|stack| - 1], p); }
  }

  /** What is taken moves from the account of the step to the local stack, and leaves the global one. */
  lemma Taken(c: Config, s: State, t: Tid)
    requires t in s.threads && s.threads[t].pc.Take? && s.threads[t].pc.p < |s.stack|
    ensures var s' := RunStep(c, s, t);
      && OneMoves(s, s', t) && s'.stack == s.stack[s.threads[t].pc.p := Empty]
      && Taking(s'.threads[t].pc) == -1 && Held(s'.threads[t]) == Held(s.threads[t])
  {
    var th, s' := s.threads[t], RunStep(c, s, t);
    assert s'.threads[t].local[..|s'.threads[t].local| - 1] == th.local;
  }

  lemma TakeWork(c: Config, s: State, t: Tid)
    requires t in s.threads && s.threads[t].pc.Take? && s.threads[t].pc.p < |s.stack|
    ensures var s' := RunStep(c, s, t);
      OneMoves(s, s', t) && forall u :: u in s.threads ==> WorkOf(s'.stack, s'.threads[u]) <= WorkOf(s.stack, s.threads[u])
  {
    var th, s' := s.threads[t], RunStep(c, s, t);
    Taken(c, s, t);
    hide RunStep, Open, Held;
    forall u | u in s.threads ensures WorkOf(s'.stack, s'.threads[u]) <= WorkOf(s.stack, s.threads[u]) {
      OpenWithout(s.stack, th.pc.p, Taking(s.threads[u].pc));
    }
  }

  lemma TakeNearer(c: Config, s: State, t: Tid)
    requires t in s.threads && s.threads[t].pc.Take? && InBounds(s, t)
    ensures Nearer(s, RunStep(c, s, t), t) && |RunStep(c, s, t).stack| == |s.stack| && RunStep(c, s, t).threads[t].pc.Steal?
  {
  }

  lemma TakeLower(c: Config, s: State, t: Tid)
    requires Inv(c, s) && t in s.threads && s.threads[t].pc.Take?
    ensures Less(MeasureOf(c, RunStep(c, s, t)), MeasureOf(c, s))
  {
    BoundsOk(c, s, t);
    assert s.threads[t].pc.p < |s.stack|;
    hide Inv, InBounds, RunStep, Search, WorkOf, MeasureOf, Less, OneMoves;
    TakeNearer(c, s, t);
    TakeWork(c, s, t);
    LowerBySearch(c, s, RunStep(c, s, t), t);
  }

  // ---------- scanning ----------

  lemma {:induction false} RoundsConcat(es: seq<Entry>, fs: seq<Entry>)
    ensures AllRounds(es + fs) == AllRounds(es) + AllRounds(fs)
    decreases |fs|
  {
    hide Rounds;
    if fs == [] {
      assert es + fs == es;
    } else {
      assert (es + fs)[..|es + fs| - 1] == es + fs[..|fs| - 1];
      RoundsConcat(es, fs[..|fs| - 1]);
    }
  }

  lemma {:induction false} RoundsPositive(es: seq<Entry>)
    ensures |es| <= AllRounds(es)
  {
    if es != [] { RoundsPositive(es[..|es| - 1]); }
  }

  lemma RoundsTwo(rest: seq<Entry>, e: Entry, f: Entry)
    ensures AllRounds(rest + [e]) == AllRounds(rest) + Rounds(e.size)
    ensures AllRounds(rest + [e, f]) == AllRounds(rest) + Rounds(e.size) + Rounds(f.size)
  {
    hide Rounds;
    assert (rest + [e])[..|rest|] == rest;
    assert (rest + [e, f])[..|rest| + 1] == rest + [e];
  }

  lemma SplitRounds(size: nat)
    requires SPLIT_RANGE_WORDS <= size
    ensures Rounds(size / 2 + 1) + Rounds(size - size / 2) < Rounds(size)
    ensures var piece := SPLIT_RANGE_WORDS - 1; Rounds(size - piece) + 2 * piece + 1 < Rounds(size)
  {
  }

  /** A short range is scanned to its end. */
  lemma ShortHeld(c: Config, th: Thread, rest: seq<Entry>, e: Entry)
    requires th.pc.Mark? && th.local == rest + [e] && e.size < SPLIT_RANGE_WORDS
    ensures Held(NextEntry(c, th)) < Held(th)
  {
    assert th.local[..|th.local| - 1] == rest;
    RoundsTwo(rest, e, e);
    assert NextEntry(c, th) == th.(local := rest, pc := Scan(e.n, e.lo, e.lo + e.size, th.pc.credit - e.size));
    hide NextEntry, AllRounds;
  }

  /** A long range is split or cut. */
  lemma LongNext(c: Config, th: Thread, rest: seq<Entry>, e: Entry)
    requires th.pc.Mark? && th.local == rest + [e] && SPLIT_RANGE_WORDS <= e.size
    ensures var piece := SPLIT_RANGE_WORDS - 1;
      || NextEntry(c, th) == th.(local := rest + [Lower(e), Upper(e)])
      || NextEntry(c, th) == th.(local := rest + [Entry(e.n, e.lo + piece, e.size - piece)],
                                 pc := Scan(e.n, e.lo, e.lo + piece, th.pc.credit - piece))
  {
    assert th.local[..|th.local| - 1] == rest;
  }

  lemma LongHeld(c: Config, th: Thread, rest: seq<Entry>, e: Entry)
    requires th.pc.Mark? && th.local == rest + [e] && SPLIT_RANGE_WORDS <= e.size
    ensures Held(NextEntry(c, th)) < Held(th)
  {
    hide NextEntry, AllRounds, Rounds;
    var piece := SPLIT_RANGE_WORDS - 1;
    LongNext(c, th, rest, e);
    SplitRounds(e.size);
    RoundsTwo(rest, e, e);
    RoundsTwo(rest, Lower(e), Upper(e));
    RoundsTwo(rest, Entry(e.n, e.lo + piece, e.size - piece), e);
  }

  /** Splitting or cutting the top entry, or starting to scan it, leaves less to do. */
  lemma NextHeld(c: Config, th: Thread)
    requires th.pc.Mark? && th.local != []
    ensures Held(NextEntry(c, th)) < Held(th)
  {
    var k := |th.local| - 1;
    var rest, e := th.local[..k], th.local[k];
    assert th.local == rest + [e];
    hide NextEntry, Held;
    if e.size < SPLIT_RANGE_WORDS { ShortHeld(c, th, rest, e); } else { LongHeld(c, th, rest, e); }
  }

  lemma NextLower(c: Config, s: State, t: Tid)
    requires t in s.threads && s.threads[t].pc.Mark? && s.threads[t].local != [] && 0 <= s.threads[t].pc.credit
    ensures Less(MeasureOf(c, RunStep(c, s, t)), MeasureOf(c, s))
  {
    var th, s' := s.threads[t], RunStep(c, s, t);
    NextHeld(c, th);
    assert s' == Put(s, t, NextEntry(c, th));
    assert NextEntry(c, th).pc.Mark? || NextEntry(c, th).pc.Scan?;
    assert WorkOf(s.stack, NextEntry(c, th)) < WorkOf(s.stack, th) by { hide Held, NextEntry, Open; }
    assert OneMoves(s, s', t);
    hide RunStep, NextEntry, WorkOf, MeasureOf, Less, OneMoves;
    LowerByWork(c, s, s', t);
  }

  /** The thread returns the first k entries of its local stack, or loses them. */
  lemma DepositLower(c: Config, s: State, t: Tid, k: nat, pc: Pc)
    requires t in s.threads && EmptyHanded(s.threads[t].pc) && EmptyHanded(pc) && 0 < k <= |s.threads[t].local|
    ensures Less(MeasureOf(c, DepositStep(c, s, t, k, pc)), MeasureOf(c, s))
  {
    var th, s' := s.threads[t], DepositStep(c, s, t, k, pc);
    assert OneMoves(s, s', t);
    if |s.stack| + k <= c.capacity {
      assert |s'.stack| == |s.stack| + k;
      hide DepositStep, MeasureOf, Less, OneMoves;
      LowerByRoom(c, s, s', t);
    } else {
      DroppedWork(s.stack, th, k, pc);
      assert s'.stack == s.stack && s'.threads[t] == th.(pc := pc, local := th.local[k..]);
      hide DepositStep, MeasureOf, Less, OneMoves, WorkOf;
      LowerByWork(c, s, s', t);
    }
  }

  lemma DroppedWork(stack: seq<Slot>, th: Thread, k: nat, pc: Pc)
    requires EmptyHanded(th.pc) && EmptyHanded(pc) && 0 < k <= |th.local|
    ensures WorkOf(stack, th.(pc := pc, local := th.local[k..])) < WorkOf(stack, th)
  {
    assert th.local == th.local[..k] + th.local[k..];
    RoundsConcat(th.local[..k], th.local[k..]);
    RoundsPositive(th.local[..k]);
    hide AllRounds, Open;
  }

  /** GC_mark_from has nothing more to scan, or no credit left. */
  lemma MarkStrolls(c: Config, s: State, t: Tid)
    requires t in s.threads && s.threads[t].pc.Mark? && InBounds(s, t)
    requires s.threads[t].local == [] || (s.threads[t].pc.credit < 0 && |s.threads[t].local| - 1 < c.localSize / 2)
    ensures Strolls(s, RunStep(c, s, t), t) && Nearer(s, RunStep(c, s, t), t)
  {
  }

  lemma GiveBackLower(c: Config, s: State, t: Tid)
    requires t in s.threads && s.threads[t].pc.Mark? && s.threads[t].local != [] && s.threads[t].pc.credit < 0
    requires c.localSize / 2 <= |s.threads[t].local| - 1
    ensures Less(MeasureOf(c, RunStep(c, s, t)), MeasureOf(c, s))
  {
    var th := s.threads[t];
    assert th.local[|th.local|..] == [] && th.local[..|th.local|] == th.local;
    assert RunStep(c, s, t) == DepositStep(c, s, t, |th.local|, LoopHead);
    hide RunStep, DepositStep, MeasureOf, Less;
    DepositLower(c, s, t, |th.local|, LoopHead);
  }

  lemma MarkLower(c: Config, s: State, t: Tid)
    requires Inv(c, s) && t in s.threads && s.threads[t].pc.Mark?
    ensures Less(MeasureOf(c, RunStep(c, s, t)), MeasureOf(c, s))
  {
    var th := s.threads[t];
    BoundsOk(c, s, t);
    hide Inv, InBounds, RunStep, Strolls, Search, MeasureOf, Less;
    if th.local != [] && 0 <= th.pc.credit {
      NextLower(c, s, t);
    } else if th.local != [] && c.localSize / 2 <= |th.local| - 1 {
      GiveBackLower(c, s, t);
    } else {
      MarkStrolls(c, s, t);
      StrollLower(c, s, RunStep(c, s, t), t);
    }
  }

  predicate Tests(pc: Pc) { pc.ShareTop? || pc.ShareFirst? || pc.ShareActive? || pc.ShareHelpers? }

  lemma TestStrolls(c: Config, s: State, t: Tid)
    requires t in s.threads && Tests(s.threads[t].pc) && s.threads[t].local != []
    ensures Strolls(s, RunStep(c, s, t), t) && Nearer(s, RunStep(c, s, t), t)
  {
  }

  lemma SharedLower(c: Config, s: State, t: Tid)
    requires t in s.threads && s.threads[t].pc == Share && 3 <= |s.threads[t].local|
    ensures Less(MeasureOf(c, RunStep(c, s, t)), MeasureOf(c, s))
  {
    assert RunStep(c, s, t) == DepositStep(c, s, t, ToShare(s.threads[t]), Mark(c.credit));
    hide RunStep, DepositStep, MeasureOf, Less;
    DepositLower(c, s, t, ToShare(s.threads[t]), Mark(c.credit));
  }

  lemma ShareLocal(c: Config, s: State, t: Tid)
    requires Inv(c, s) && t in s.threads && (Tests(s.threads[t].pc) || s.threads[t].pc == Share)
    ensures s.threads[t].local != [] && (s.threads[t].pc == Share ==> 3 <= |s.threads[t].local|)
  {
    assert ThreadOk(c, s, s.threads[t]);
    hide Inv, TakenBelow;
  }

  lemma ShareLower(c: Config, s: State, t: Tid)
    requires Inv(c, s) && t in s.threads && (Tests(s.threads[t].pc) || s.threads[t].pc == Share)
    ensures Less(MeasureOf(c, RunStep(c, s, t)), MeasureOf(c, s))
  {
    ShareLocal(c, s, t);
    hide Inv, MeasureOf, Less, RunStep, Strolls, Search;
    if s.threads[t].pc == Share {
      SharedLower(c, s, t);
    } else {
      TestStrolls(c, s, t);
      StrollLower(c, s, RunStep(c, s, t), t);
    }
  }

  lemma ScanWork(c: Config, s: State, t: Tid)
    requires t in s.threads && s.threads[t].pc.Scan?
    ensures var s' := RunStep(c, s, t);
      && OneMoves(s, s', t) && s'.stack == s.stack && (s'.threads[t].pc.SetMark? ==> !IsLate(c, s', t))
      && WorkOf(s.stack, s'.threads[t]) < WorkOf(s.stack, s.threads[t])
  {
    hide AllRounds, Open, Words;
  }

  lemma ScanLower(c: Config, s: State, t: Tid)
    requires t in s.threads && s.threads[t].pc.Scan?
    ensures Less(MeasureOf(c, RunStep(c, s, t)), MeasureOf(c, s))
  {
    ScanWork(c, s, t);
    hide RunStep, WorkOf, MeasureOf, Less, OneMoves;
    LowerByWork(c, s, RunStep(c, s, t), t);
  }

  // ---------- setting marks ----------

  lemma Proper<T>(a: set<T>, b: set<T>, x: T)
    requires a <= b && x in b && x !in a
    ensures |a| < |b|
  {
    assert b == a + (b - a) && x in b - a;
  }

  /** Thread t sets the mark of m. */
  ghost predicate Sets(s: State, s': State, t: Tid, m: Node) {
    && t in s.threads && s'.threads.Keys == s.threads.Keys && !s'.threads[t].pc.SetMark?
    && (forall u :: u in s.threads && u != t ==> s'.threads[u] == s.threads[u])
    && s'.marked == s.marked + {m} && s'.progress == s.progress && s'.joined == s.joined
  }

  lemma SetMarkIs(c: Config, s: State, t: Tid)
    requires t in s.threads && s.threads[t].pc.SetMark? && s.threads[t].pc.j < |Words(c, s.threads[t].pc.n)|
    ensures Sets(s, RunStep(c, s, t), t, Words(c, s.threads[t].pc.n)[s.threads[t].pc.j])
  {
    var SetMark(n, j, end, credit) := s.threads[t].pc;
    var m := Words(c, n)[j];
    assert RunStep(c, s, t) == SetMarkStep(c, s, t, m, Scan(n, j + 1, end, credit));
    hide RunStep, Words, PushLocal;
  }

  /** A mark is set, or the thread was late and some other thread has set it. */
  lemma SetMarkLower(c: Config, s: State, t: Tid)
    requires Inv(c, s) && t in s.threads && s.threads[t].pc.SetMark?
    ensures Less(MeasureOf(c, RunStep(c, s, t)), MeasureOf(c, s))
  {
    var s' := RunStep(c, s, t);
    assert ThreadOk(c, s, s.threads[t]);
    SetMarkIs(c, s, t);
    var m := Words(c, s.threads[t].pc.n)[s.threads[t].pc.j];
    hide Inv, ThreadOk, RunStep, TotalWork, TotalSearch, Room, Behind, LessRest, LateThreads, Words;
    if m !in s.marked {
      Proper(c.objects - s'.marked, c.objects - s.marked, m);
    } else {
      assert s'.marked == s.marked;
      LateLess(c, s, s', t);
      hide IsLate;
      LateFirst(MeasureOf(c, s'), MeasureOf(c, s));
    }
  }

  lemma LateFirst(m: Measure, n: Measure)
    requires m.late < n.late
    ensures LessRest(m, n)
  {
  }

  lemma LateLess(c: Config, s: State, s': State, t: Tid)
    requires t in s.threads && s'.threads.Keys == s.threads.Keys && s'.marked == s.marked && IsLate(c, s, t) && !s'.threads[t].pc.SetMark?
    requires forall u :: u in s.threads && u != t ==> s'.threads[u] == s.threads[u]
    ensures |LateThreads(c, s')| < |LateThreads(c, s)|
  {
    forall u | u in LateThreads(c, s') ensures u in LateThreads(c, s) { assert u != t && (IsLate(c, s', u) <==> IsLate(c, s, u)); }
    Proper(LateThreads(c, s'), LateThreads(c, s), t);
  }

  // ---------- every step ----------

  /** A step of a thread lowers the measure, unless the thread goes on waiting. */
  lemma RunLower(c: Config, s: State, t: Tid)
    requires Inv(c, s) && t in s.threads && s.threads[t].pc != Outside && RunStep(c, s, t) != s
    ensures Less(MeasureOf(c, RunStep(c, s, t)), MeasureOf(c, s))
  {
    var pc := s.threads[t].pc;
    if pc.Waiting? {
      assert RunStep(c, s, t) == WaitStep(c, s, t);
      hide Inv, RunStep, WaitStep, MeasureOf, Less;
      AfterWaitLower(c, s, t);
    } else {
      hide Inv, RunStep, MeasureOf, Less;
      if Searches(pc) { SearchLower(c, s, t); }
      else if pc.LockedCheck? { LockedLower(c, s, t); }
      else if pc.Steal? { StealLower(c, s, t); }
      else if pc.Take? { TakeLower(c, s, t); }
      else if pc.Mark? { MarkLower(c, s, t); }
      else if pc.Scan? { ScanLower(c, s, t); }
      else if pc.SetMark? { SetMarkLower(c, s, t); }
      else { ShareLower(c, s, t); }
    }
  }

  lemma JoinLower(c: Config, s: State, t: Tid)
    requires Enabled(c, s, Join(t))
    ensures Less(MeasureOf(c, Apply(c, s, Join(t))), MeasureOf(c, s))
  {
    var s' := Apply(c, s, Join(t));
    assert s'.threads.Keys == s.threads.Keys;
    Proper(s'.threads.Keys - s'.joined, s.threads.Keys - s.joined, t);
    hide TotalWork, TotalSearch, LateThreads;
  }

  lemma StageLower(c: Config, s: State, s': State)
    requires Stage(s'.progress) < Stage(s.progress)
    ensures Less(MeasureOf(c, s'), MeasureOf(c, s))
  {
    hide TotalWork, TotalSearch, LateThreads, Stage;
  }

  lemma StepLower(c: Config, s: State, a: Action)
    requires Inv(c, s) && Enabled(c, s, a) && Apply(c, s, a) != s
    ensures Less(MeasureOf(c, Apply(c, s, a)), MeasureOf(c, s))
  {
    hide Inv, RunStep, MeasureOf, Less;
    match a
    case Run(t) => RunLower(c, s, t);
    case Join(t) => JoinLower(c, s, t);
    case _ => StageLower(c, s, Apply(c, s, a));
  }

  // ---------- whole schedules ----------

  /** Some step would change the state. */
  ghost predicate CanMove(c: Config, s: State) {
    exists a :: Enabled(c, s, a) && Apply(c, s, a) != s
  }

  /** Until GC_do_parallel_mark returns, some step would change the state. */
  lemma MovesUntilReturned(c: Config, s: State)
    requires Inv(c, s)
    ensures s.progress != Returned ==> CanMove(c, s)
  {
    if s.progress == NotStarted {
      assert Enabled(c, s, Start) && Apply(c, s, Start).progress == Marking;
    } else if s.progress == Left {
      assert Enabled(c, s, StopHelp) && Apply(c, s, StopHelp).progress == Draining;
    } else if s.progress == Draining && s.helpers == 0 {
      assert Enabled(c, s, Finish) && Apply(c, s, Finish).progress == Returned;
    } else if s.progress != Returned {
      HelpersLeft(c, s);
      hide Inv, RunStep;
      NoDeadlock(c, s);
      var t :| t in s.threads && s.threads[t].pc != Outside && RunStep(c, s, t) != s;
      assert Enabled(c, s, Run(t)) && Apply(c, s, Run(t)) == RunStep(c, s, t);
    }
  }

  lemma HelpersLeft(c: Config, s: State)
    requires Inv(c, s) && (s.progress == Marking || (s.progress == Draining && s.helpers != 0))
    ensures 0 < s.helpers
  {
    assert s.helpers == |HelperThreads(s)|;
    if s.progress == Marking { SomeMember(HelperThreads(s), c.initiator); }
  }

  /** An endless schedule, in which the chosen step may be impossible, or put off. */
  ghost predicate IsSchedule(c: Config, states: nat -> State, actions: nat -> Action) {
    && Initial(c, states(0))
    && forall i: nat :: states(i + 1) == states(i) || (Enabled(c, states(i), actions(i)) && states(i + 1) == Apply(c, states(i), actions(i)))
  }

  /** Where some step would change the state, the state changes sooner or later. */
  ghost predicate IsFair(c: Config, states: nat -> State) {
    forall i: nat :: CanMove(c, states(i)) ==> exists j: nat :: i <= j && states(j + 1) != states(j)
  }

  lemma {:induction false} ScheduleInv(c: Config, states: nat -> State, actions: nat -> Action, n: nat)
    requires IsSchedule(c, states, actions)
    ensures Inv(c, states(n))
  {
    if n == 0 {
      InitialInv(c, states(0));
    } else {
      ScheduleInv(c, states, actions, n - 1);
      hide Inv, Apply, Enabled, Initial;
      assert states(n - 1 + 1) == states(n);
      if states(n) != states(n - 1) { StepInv(c, states(n - 1), actions(n - 1)); }
    }
  }

  predicate AtMost(m: Measure, n: Measure) { m == n || Less(m, n) }

  lemma AtMostTransitive(m: Measure, n: Measure, k: Measure)
    ensures AtMost(m, n) && AtMost(n, k) ==> AtMost(m, k)
    ensures Less(m, n) && AtMost(n, k) ==> Less(m, k)
  {
  }

  lemma NextAtMost(c: Config, states: nat -> State, actions: nat -> Action, n: nat)
    requires IsSchedule(c, states, actions)
    ensures AtMost(MeasureOf(c, states(n + 1)), MeasureOf(c, states(n)))
  {
    hide Inv, Apply, Enabled, Initial, MeasureOf, Less;
    ScheduleInv(c, states, actions, n);
    if states(n + 1) != states(n) { StepLower(c, states(n), actions(n)); }
  }

  lemma {:induction false} NeverGrows(c: Config, states: nat -> State, actions: nat -> Action, i: nat, n: nat)
    requires IsSchedule(c, states, actions) && i <= n
    ensures AtMost(MeasureOf(c, states(n)), MeasureOf(c, states(i)))
    decreases n
  {
    hide Inv, Apply, Enabled, Initial, MeasureOf, Less, IsSchedule;
    if i < n {
      NeverGrows(c, states, actions, i, n - 1);
      NextAtMost(c, states, actions, n - 1);
      assert n - 1 + 1 == n;
      AtMostTransitive(MeasureOf(c, states(n)), MeasureOf(c, states(n - 1)), MeasureOf(c, states(i)));
    }
  }

  lemma {:induction false} ReturnsFrom(c: Config, states: nat -> State, actions: nat -> Action, i: nat, m: Measure)
    requires IsSchedule(c, states, actions) && IsFair(c, states) && m == MeasureOf(c, states(i))
    ensures exists n: nat :: states(n).progress == Returned
    decreases m.stage, m.away, m.unmarked, m.late, m.room, m.work, m.behind, m.search
  {
    hide MeasureOf, Initial, Inv, Apply, Enabled, CanMove;
    ScheduleInv(c, states, actions, i);
    MovesUntilReturned(c, states(i));
    if states(i).progress != Returned {
      var j: nat :| i <= j && states(j + 1) != states(j);
      NeverGrows(c, states, actions, i, j);
      ScheduleInv(c, states, actions, j);
      StepLower(c, states(j), actions(j));
      var m' := MeasureOf(c, states(j + 1));
      AtMostTransitive(m', MeasureOf(c, states(j)), m);
      ReturnsFrom(c, states, actions, j + 1, m');
    }
  }

  /** Under every fair schedule GC_do_parallel_mark returns. */
  lemma ParallelMarkReturns(c: Config, states: nat -> State, actions: nat -> Action)
    requires IsSchedule(c, states, actions) && IsFair(c, states)
    ensures exists n: nat :: states(n).progress == Returned
  {
    ReturnsFrom(c, states, actions, 0, MeasureOf(c, states(0)));
  }
}
