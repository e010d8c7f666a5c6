/**
The parallel marker (libs/gc/mark.c:611-1223) as interleaved atomic steps of any number of threads:
one step for each access to shared memory, and one for each section run under the mark lock.
 */
module ParallelMark {

  /** Something to scan: an object, or a range of root words. */
  type Node = nat

  type Tid = nat

  /** A mark stack entry: the words lo to lo + size of a node. */
  datatype Entry = Entry(n: Node, lo: nat, size: nat)

  datatype Slot = Empty | Full(e: Entry)

  /** Where a thread stands in GC_mark_local, and the local variables it still needs there; sizes and credit in words. */
  datatype Pc =
    | Outside                                                // not in GC_mark_local
    | Entering                                               // helper count incremented, first locked section ahead
    | LoopHead                                               // about to load GC_first_nonempty
    | Compare(g: nat)                                        // loaded g
    | ReadTop                                                // about to load GC_mark_stack_top
    | LockedCheck                                            // nothing on the stack; about to check under the lock
    | Waiting                                                // in the while loop around GC_wait_marker
    | Steal(p: nat, top: nat, count: nat, max: nat)          // at entry p of GC_steal_mark_stack
    | Take(p: nat, top: nat, count: nat, max: nat, e: Entry) // loaded e from entry p; about to clear the entry
    | Mark(credit: int)                                      // in GC_mark_from, between two entries
    | Scan(n: Node, j: nat, end: nat, credit: int)           // about to read word j of n and the mark of its target
    | SetMark(n: Node, j: nat, end: nat, credit: int)        // read the mark as clear; about to set it
    | ShareTop                                               // after GC_mark_from; about to load GC_mark_stack_top
    | ShareFirst(top: nat)                                   // about to load GC_first_nonempty
    | ShareActive                                            // about to read GC_active_count
    | ShareHelpers(active: int)                              // about to read GC_helper_count
    | Share                                                  // about to return the lower half of the local stack

  datatype Thread = Thread(pc: Pc, myFirst: nat, local: seq<Entry>)

  /** How far the initiating thread has come in GC_do_parallel_mark. */
  datatype Progress = NotStarted | Marking | Left | Draining | Returned

  datatype State = State(
    stack: seq<Slot>,           // the global mark stack up to GC_mark_stack_top
    first: nat,                 // GC_first_nonempty, as an index
    active: int,                // GC_active_count
    helpers: int,               // GC_helper_count
    helpWanted: bool,           // GC_help_wanted
    invalid: bool,              // GC_mark_state == MS_INVALID
    marked: set<Node>,
    threads: map<Tid, Thread>,
    progress: Progress,
    pushed: set<Node>,          // history: every node of which an entry was ever on a mark stack
    joined: set<Tid>)           // helpers that have found this mark number; each of them does so once

  /**
   * What does not change during parallel marking: the words of the nodes; which words refer to objects, and which
   * of these are leaves, that is, have no mark descriptor and are never pushed; the marks set before; and the sizes.
   */
  datatype Config = Config(
    words: map<Node, seq<Node>>, objects: set<Node>, leaves: set<Node>, before: set<Node>, initiator: Tid,
    capacity: nat,              // GC_mark_stack_size
    localSize: nat,             // LOCAL_MARK_STACK_SIZE
    discards: nat,              // GC_MARK_STACK_DISCARDS
    share: nat,                 // SHARE_BYTES, in words
    credit: nat,                // HBLKSIZE, in words
    unit: Positive)             // 256 bytes, in words

  type Positive = n: nat | 0 < n witness 1

  const ENTRIES_TO_GET: nat := 5
  const SPLIT_RANGE_WORDS: nat := 128

  /** The words of n that are scanned. */
  function Words(c: Config, n: Node): seq<Node> {
    if n in c.words && n !in c.leaves then c.words[n] else []
  }

  predicate IsActive(pc: Pc) { !pc.Outside? && !pc.Entering? && !pc.Waiting? }

  predicate IsHelper(pc: Pc) { !pc.Outside? }

  ghost function ActiveThreads(s: State): set<Tid> {
    set t | t in s.threads && IsActive(s.threads[t].pc)
  }

  ghost function HelperThreads(s: State): set<Tid> {
    set t | t in s.threads && IsHelper(s.threads[t].pc)
  }

  // ---------- steps ----------

  datatype Action =
    | Start                     // the initiator's first locked section in GC_do_parallel_mark
    | Join(t: Tid)              // GC_help_marker finds its mark number and decides to help
    | Run(t: Tid)               // the next atomic step of t in GC_mark_local
    | StopHelp                  // the initiator clears GC_help_wanted
    | Finish                    // the initiator finds that no helper is left

  predicate Enabled(c: Config, s: State, a: Action) {
    match a
    case Start => s.progress == NotStarted && c.initiator in s.threads && s.threads[c.initiator].pc == Outside
    case Join(t) => t in s.threads && t != c.initiator && s.threads[t].pc == Outside && t !in s.joined && s.helpWanted
    case Run(t) => t in s.threads && s.threads[t].pc != Outside
    case StopHelp => s.progress == Left
    case Finish => s.progress == Draining && s.helpers == 0
  }

  function Put(s: State, t: Tid, th: Thread): State {
    s.(threads := s.threads[t := th])
  }

  /** GC_return_mark_stack has no room for k entries. */
  predicate NoRoom(c: Config, s: State, k: nat) { c.capacity < |s.stack| + k }

  /** GC_return_mark_stack: copy entries to the global stack, or drop them if there is no room. */
  function Deposit(c: Config, s: State, es: seq<Entry>): State {
    if NoRoom(c, s, |es|) then s.(invalid := true)
    else s.(stack := s.stack + seq(|es|, i requires 0 <= i < |es| => Full(es[i])))
  }

  /** PUSH_OBJ on the local stack; an overflow drops some of its entries. */
  function PushLocal(c: Config, th: Thread, n: Node): Thread {
    var e := Entry(n, 0, |Words(c, n)|);
    if |th.local| < c.localSize then th.(local := th.local + [e])
    else th.(local := th.local[..if c.discards <= |th.local| then |th.local| - c.discards else 0] + [e])
  }

  /** The check at the end of the locked section: wait, leave, or go on. */
  function AfterWait(c: Config, s: State, t: Tid): State
    requires t in s.threads
  {
    var th := s.threads[t];
    if 0 < s.active && |s.stack| <= s.first then Put(s, t, th.(pc := Waiting))
    else if s.active == 0 && |s.stack| <= s.first then
      Put(s, t, th.(pc := Outside)).(helpers := s.helpers - 1, progress := if t == c.initiator then Left else s.progress)
    else Put(s, t, th.(pc := LoopHead)).(active := s.active + 1)
  }

  /** The range that a thread leaves to others, with one word more for pointers across the boundary. */
  function Lower(e: Entry): Entry { Entry(e.n, e.lo, e.size / 2 + 1) }

  function Upper(e: Entry): Entry { Entry(e.n, e.lo + e.size / 2, e.size - e.size / 2) }

  /** GC_mark_from at its top entry: a long range is split in two, or cut at 127 words, or scanned to its end. */
  function NextEntry(c: Config, th: Thread): Thread
    requires th.pc.Mark? && th.local != []
  {
    var rest, e := th.local[..|th.local| - 1], th.local[|th.local| - 1];
    if SPLIT_RANGE_WORDS <= e.size && c.share < e.size && |th.local| < c.localSize then
      th.(local := rest + [Lower(e), Upper(e)])
    else if SPLIT_RANGE_WORDS <= e.size then
      var piece := SPLIT_RANGE_WORDS - 1;
      th.(local := rest + [Entry(e.n, e.lo + piece, e.size - piece)], pc := Scan(e.n, e.lo, e.lo + piece, th.pc.credit - piece))
    else
      th.(local := rest, pc := Scan(e.n, e.lo, e.lo + e.size, th.pc.credit - e.size))
  }

  /** GC_do_local_mark when GC_mark_from has used up its credit. */
  function AfterMarkFrom(c: Config, s: State, t: Tid): State
    requires t in s.threads
  {
    var th := s.threads[t];
    if c.localSize / 2 <= |th.local| - 1 then Deposit(c, Put(s, t, th.(pc := LoopHead, local := [])), th.local)
    else Put(s, t, th.(pc := ShareTop))
  }

  /** The entries that GC_do_local_mark returns to share them. */
  function ToShare(th: Thread): nat { if |th.local| == 0 then 0 else (|th.local| - 1) / 2 }

  function RunStep(c: Config, s: State, t: Tid): State
    requires t in s.threads && s.threads[t].pc != Outside
  {
    var th := s.threads[t];
    match th.pc
    case Entering => Put(s, t, th.(pc := LoopHead, myFirst := s.first)).(active := s.active + 1)
    case LoopHead => Put(s, t, th.(pc := Compare(s.first)))
    case Compare(g) =>
      if th.myFirst < g then Put(s, t, th.(pc := ReadTop, myFirst := g))
      else if g < th.myFirst && s.first == g then Put(s, t, th.(pc := ReadTop)).(first := th.myFirst)
      else Put(s, t, th.(pc := ReadTop))
    case ReadTop =>
      if |s.stack| == th.myFirst then Put(s, t, th.(pc := LockedCheck))
      else Put(s, t, th.(pc := StartSteal(th.myFirst, |s.stack|)))
    case LockedCheck =>
      if |s.stack| == th.myFirst then AfterWait(c, s.(active := s.active - 1), t)
      else Put(s, t, th.(pc := StartSteal(th.myFirst, |s.stack|)))
    case Waiting => AfterWait(c, s, t)
    case Steal(p, top, count, max) =>
      if top <= p || max < count || |s.stack| <= p then Put(s, t, th.(pc := Mark(c.credit), myFirst := p))
      else
        (match s.stack[p]
         case Empty => Put(s, t, th.(pc := Steal(p + 1, top, count, max)))
         case Full(e) => Put(s, t, th.(pc := Take(p, top, count, max, e))))
    case Take(p, top, count, max, e) =>
      Put(s, t, th.(pc := Steal(p + 1, top, count + Weight(c, e), max), local := th.local + [e]))
       .(stack := if p < |s.stack| then s.stack[p := Empty] else s.stack)
    case Mark(credit) =>
      if th.local == [] then Put(s, t, th.(pc := LoopHead))
      else if 0 <= credit then Put(s, t, NextEntry(c, th))
      else AfterMarkFrom(c, s, t)
    case Scan(n, j, end, credit) =>
      if end <= j || |Words(c, n)| <= j then Put(s, t, th.(pc := Mark(credit)))
      else if Words(c, n)[j] !in c.objects || Words(c, n)[j] in s.marked then Put(s, t, th.(pc := Scan(n, j + 1, end, credit)))
      else Put(s, t, th.(pc := SetMark(n, j, end, credit)))
    case SetMark(n, j, end, credit) =>
      if |Words(c, n)| <= j then Put(s, t, th.(pc := Mark(credit)))
      else SetMarkStep(c, s, t, Words(c, n)[j], Scan(n, j + 1, end, credit))
    case ShareTop => Put(s, t, th.(pc := ShareFirst(|s.stack|)))
    case ShareFirst(top) => Put(s, t, th.(pc := if top <= s.first then ShareActive else Mark(c.credit)))
    case ShareActive => Put(s, t, th.(pc := ShareHelpers(s.active)))
    case ShareHelpers(active) => Put(s, t, th.(pc := if active < s.helpers && 3 <= |th.local| then Share else Mark(c.credit)))
    case Share => Deposit(c, Put(s, t, th.(pc := Mark(c.credit), local := th.local[ToShare(th)..])), th.local[..ToShare(th)])
  }

  /** The mark of m is set, and m is pushed unless it is a leaf. */
  function SetMarkStep(c: Config, s: State, t: Tid, m: Node, next: Pc): State
    requires t in s.threads
  {
    var th := s.threads[t];
    if m in c.leaves then
      Put(s, t, th.(pc := next)).(marked := s.marked + {m})
    else
      Put(s, t, PushLocal(c, th, m).(pc := next))
       .(marked := s.marked + {m}, pushed := s.pushed + {m}, invalid := s.invalid || c.localSize <= |th.local|)
  }

  /** n_to_get, and the start of GC_steal_mark_stack at the first entry that may be nonempty. */
  function StartSteal(from: nat, top: nat): Pc {
    Steal(from, top, 0, if top < from + 2 * ENTRIES_TO_GET then 1 else ENTRIES_TO_GET)
  }

  /** How much an entry counts in GC_steal_mark_stack. */
  function Weight(c: Config, e: Entry): nat { 1 + e.size / c.unit }

  function Apply(c: Config, s: State, a: Action): State
    requires Enabled(c, s, a)
  {
    match a
    case Start =>
      Put(s, c.initiator, s.threads[c.initiator].(pc := Entering))
       .(first := 0, active := 0, helpers := 1, helpWanted := true, progress := Marking)
    case Join(t) => Put(s, t, s.threads[t].(pc := Entering)).(helpers := s.helpers + 1, joined := s.joined + {t})
    case Run(t) => RunStep(c, s, t)
    case StopHelp => s.(helpWanted := false, progress := Draining)
    case Finish => s.(progress := Returned)
  }

  // ---------- invariant ----------

  /** All entries of the global stack below k have been taken. */
  ghost predicate TakenBelow(s: State, k: nat) {
    k <= |s.stack| && forall i :: 0 <= i < k ==> s.stack[i] == Empty
  }

  /** Word j of n does not refer to an unmarked object. */
  ghost predicate Settled(c: Config, s: State, n: Node, j: nat) {
    j < |Words(c, n)| && Words(c, n)[j] in c.objects ==> Words(c, n)[j] in s.marked
  }

  ghost predicate Processed(c: Config, s: State, n: Node) {
    forall j: nat :: j < |Words(c, n)| ==> Settled(c, s, n, j)
  }

  ghost predicate ThreadOk(c: Config, s: State, th: Thread) {
    && TakenBelow(s, th.myFirst)
    && (forall i :: 0 <= i < |th.local| ==> th.local[i].n in s.pushed)
    && match th.pc
       case Steal(p, top, count, max) => th.myFirst <= p <= top <= |s.stack| && TakenBelow(s, p)
       case Take(p, top, count, max, e) =>
         th.myFirst <= p < top <= |s.stack| && TakenBelow(s, p) && (s.stack[p] == Empty || s.stack[p] == Full(e)) && e.n in s.pushed
       case Compare(g) => TakenBelow(s, g) && th.local == []
       case Scan(n, _, _, _) => n in s.pushed
       case SetMark(n, j, _, _) => n in s.pushed && j < |Words(c, n)| && Words(c, n)[j] in c.objects
       case Mark(_) => true
       case Share => 3 <= |th.local|
       case pc => if pc.ShareTop? || pc.ShareFirst? || pc.ShareActive? || pc.ShareHelpers? then th.local != [] else th.local == []
  }

  predicate Covers(e: Entry, n: Node, j: nat) { e.n == n && e.lo <= j < e.lo + e.size }

  ghost predicate InLocal(th: Thread, n: Node, j: nat) {
    exists i :: 0 <= i < |th.local| && Covers(th.local[i], n, j)
  }

  /** The thread still has to scan word j of n. */
  ghost predicate Holds(th: Thread, n: Node, j: nat) {
    InLocal(th, n, j) || InHand(th.pc, n, j)
  }

  predicate InHand(pc: Pc, n: Node, j: nat) {
    match pc
    case Take(_, _, _, _, e) => Covers(e, n, j)
    case Scan(m, k, end, _) => m == n && k <= j < end
    case SetMark(m, k, end, _) => m == n && k <= j < end
    case _ => false
  }

  ghost predicate OnStack(s: State, n: Node, j: nat) {
    exists i :: 0 <= i < |s.stack| && s.stack[i].Full? && Covers(s.stack[i].e, n, j)
  }

  ghost predicate Pending(s: State, n: Node, j: nat) {
    OnStack(s, n, j) || exists t :: t in s.threads && Holds(s.threads[t], n, j)
  }

  /** The thread has nothing left to scan. */
  predicate IsFree(th: Thread) {
    th.local == [] && !th.pc.Take? && !th.pc.Scan? && !th.pc.SetMark?
  }

  /** No work is left anywhere. */
  ghost predicate Quiescent(s: State) {
    TakenBelow(s, |s.stack|) && forall t :: t in s.threads ==> IsFree(s.threads[t])
  }

  ghost predicate Counts(s: State) {
    s.active == |ActiveThreads(s)| && s.helpers == |HelperThreads(s)|
  }

  /** What has to be scanned: everything that was pushed, and everything that was not marked before. */
  ghost predicate Owed(c: Config, s: State, n: Node) {
    n in s.pushed || (n in s.marked && n !in c.before)
  }

  /** Nothing was lost: every word of a node that was pushed or newly marked is settled or pending, unless the state is invalid. */
  ghost predicate WorkOk(c: Config, s: State) {
    !s.invalid ==> forall n, j: nat :: Owed(c, s, n) && j < |Words(c, n)| ==> Settled(c, s, n, j) || Pending(s, n, j)
  }

  ghost predicate StackOk(s: State) {
    && TakenBelow(s, s.first)
    && (forall i :: 0 <= i < |s.stack| && s.stack[i].Full? ==> s.stack[i].e.n in s.pushed)
  }

  ghost predicate ProgressOk(c: Config, s: State) {
    && c.initiator in s.threads
    && (s.progress == NotStarted ==> s.helpers == 0 && !s.helpWanted)
    && (s.progress == Marking <==> s.threads[c.initiator].pc != Outside)
    && (s.progress in {Draining, Returned} ==> !s.helpWanted)
    && (s.progress in {Left, Draining, Returned} ==> Quiescent(s) && |s.stack| <= s.first)
    && (s.progress == Returned ==> s.helpers == 0)
  }

  ghost predicate Inv(c: Config, s: State) {
    && Counts(s)
    && WorkOk(c, s)
    && StackOk(s)
    && ProgressOk(c, s)
    && forall t :: t in s.threads ==> ThreadOk(c, s, s.threads[t])
  }

  predicate IsWhole(c: Config, e: Entry) { e.lo == 0 && e.size == |Words(c, e.n)| }

  /** Before GC_do_parallel_mark: entries on the global stack, and no thread in the marker. */
  ghost predicate Initial(c: Config, s: State) {
    && c.initiator in s.threads && s.progress == NotStarted
    && s.active == 0 && s.helpers == 0 && !s.helpWanted && !s.invalid && s.first == 0
    && (forall t :: t in s.threads ==> s.threads[t] == Thread(Outside, 0, []))
    && (forall i :: 0 <= i < |s.stack| && s.stack[i].Full? ==> IsWhole(c, s.stack[i].e) && s.stack[i].e.n in s.pushed)
    && (forall n :: n in s.pushed ==> exists i :: 0 <= i < |s.stack| && s.stack[i].Full? && s.stack[i].e.n == n)
    && s.marked == c.before && s.joined == {}
  }

  // ---------- counting threads ----------

  lemma SwapSize(a: set<Tid>, b: set<Tid>, t: Tid)
    requires a - {t} == b - {t}
    ensures |b| == |a| - (if t in a then 1 else 0) + (if t in b then 1 else 0)
  {
    assert a == if t in a then (a - {t}) + {t} else a - {t};
    assert b == if t in b then (b - {t}) + {t} else b - {t};
  }

  lemma PutActive(s: State, t: Tid, th: Thread)
    requires t in s.threads
    ensures |ActiveThreads(Put(s, t, th))|
            == |ActiveThreads(s)| - (if IsActive(s.threads[t].pc) then 1 else 0) + (if IsActive(th.pc) then 1 else 0)
  {
    assert ActiveThreads(s) - {t} == ActiveThreads(Put(s, t, th)) - {t};
    SwapSize(ActiveThreads(s), ActiveThreads(Put(s, t, th)), t);
  }

  lemma PutHelpers(s: State, t: Tid, th: Thread)
    requires t in s.threads
    ensures |HelperThreads(Put(s, t, th))|
            == |HelperThreads(s)| - (if IsHelper(s.threads[t].pc) then 1 else 0) + (if IsHelper(th.pc) then 1 else 0)
  {
    assert HelperThreads(s) - {t} == HelperThreads(Put(s, t, th)) - {t};
    SwapSize(HelperThreads(s), HelperThreads(Put(s, t, th)), t);
  }

  lemma SomeMember(ts: set<Tid>, t: Tid)
    requires t in ts
    ensures 0 < |ts|
  {
    assert ts == ts - {t} + {t};
  }

  // ---------- what steps of one thread leave to the others ----------

  /** Entries are only appended or cleared, and nothing is unmarked. */
  ghost predicate Grows(s: State, s': State) {
    && |s.stack| <= |s'.stack|
    && (forall i :: 0 <= i < |s.stack| ==> s'.stack[i] == s.stack[i] || s'.stack[i] == Empty)
    && s.marked <= s'.marked && s.pushed <= s'.pushed
  }

  lemma ThreadOkGrows(c: Config, s: State, s': State, th: Thread)
    requires Grows(s, s') && ThreadOk(c, s, th)
    ensures ThreadOk(c, s', th)
  {
  }

  /** What thread t had to scan is scanned or still to be scanned. */
  ghost predicate Keeps(c: Config, s: State, s': State, t: Tid)
    requires t in s.threads && t in s'.threads
  {
    forall n, j: nat {:trigger Holds(s.threads[t], n, j)} :: Holds(s.threads[t], n, j) ==>
      Holds(s'.threads[t], n, j) || Settled(c, s', n, j) || OnStack(s', n, j)
  }

  /** What is gone from the global stack is in the hands of thread t. */
  ghost predicate Takes(s: State, s': State, t: Tid)
    requires t in s.threads && t in s'.threads && |s.stack| <= |s'.stack|
  {
    forall i, j: nat {:trigger Covers(s.stack[i].e, s.stack[i].e.n, j)} ::
      0 <= i < |s.stack| && s.stack[i].Full? && s'.stack[i] != s.stack[i] && Covers(s.stack[i].e, s.stack[i].e.n, j) ==>
      Holds(s'.threads[t], s.stack[i].e.n, j)
  }

  /** A step of thread t that forgets nothing. */
  lemma WorkKept(c: Config, s: State, s': State, t: Tid)
    requires WorkOk(c, s) && Grows(s, s') && t in s.threads && s'.threads.Keys == s.threads.Keys
    requires s'.invalid || !s.invalid
    requires forall u :: u in s.threads && u != t ==> s'.threads[u] == s.threads[u]
    requires !s'.invalid ==> Takes(s, s', t) && Keeps(c, s, s', t)
    requires !s'.invalid ==> forall n, j: nat :: Owed(c, s', n) && !Owed(c, s, n) && j < |Words(c, n)| ==> Holds(s'.threads[t], n, j)
    ensures WorkOk(c, s')
  {
    if !s'.invalid {
      forall n, j: nat | Owed(c, s', n) && j < |Words(c, n)| ensures Settled(c, s', n, j) || Pending(s', n, j) {
        if Owed(c, s, n) {
          WordKept(c, s, s', t, n, j);
        } else {
          assert Holds(s'.threads[t], n, j);
        }
      }
    }
  }

  lemma WordKept(c: Config, s: State, s': State, t: Tid, n: Node, j: nat)
    requires Grows(s, s') && t in s.threads && s'.threads.Keys == s.threads.Keys
    requires forall u :: u in s.threads && u != t ==> s'.threads[u] == s.threads[u]
    requires Takes(s, s', t) && Keeps(c, s, s', t)
    requires Settled(c, s, n, j) || Pending(s, n, j)
    ensures Settled(c, s', n, j) || Pending(s', n, j)
  {
    if Settled(c, s, n, j) {
    } else if i :| 0 <= i < |s.stack| && s.stack[i].Full? && Covers(s.stack[i].e, n, j) {
      assert Covers(s.stack[i].e, s.stack[i].e.n, j);
      assert s'.stack[i] == s.stack[i] || Holds(s'.threads[t], n, j);
    } else {
      assert !OnStack(s, n, j);
      var u :| u in s.threads && Holds(s.threads[u], n, j);
      if u != t { assert Holds(s'.threads[u], n, j); }
    }
  }

  // ---------- every step keeps the invariant ----------

  /** What all steps of thread t in GC_mark_local have in common. */
  ghost predicate OneThread(s: State, s': State, t: Tid) {
    && t in s.threads && t in s'.threads && s'.threads == s.threads[t := s'.threads[t]]
    && s'.helpWanted == s.helpWanted && Grows(s, s') && (s.invalid ==> s'.invalid)
  }

  lemma CountsKept(s: State, s': State, t: Tid)
    requires Counts(s) && t in s.threads && t in s'.threads && s'.threads == s.threads[t := s'.threads[t]]
    requires s'.active == s.active - (if IsActive(s.threads[t].pc) then 1 else 0) + (if IsActive(s'.threads[t].pc) then 1 else 0)
    requires s'.helpers == s.helpers - (if IsHelper(s.threads[t].pc) then 1 else 0) + (if IsHelper(s'.threads[t].pc) then 1 else 0)
    ensures Counts(s')
  {
    PutActive(s, t, s'.threads[t]);
    PutHelpers(s, t, s'.threads[t]);
    assert ActiveThreads(s') == ActiveThreads(Put(s, t, s'.threads[t]));
    assert HelperThreads(s') == HelperThreads(Put(s, t, s'.threads[t]));
  }

  lemma ThreadsKept(c: Config, s: State, s': State, t: Tid)
    requires OneThread(s, s', t) && forall u :: u in s.threads ==> ThreadOk(c, s, s.threads[u])
    requires ThreadOk(c, s', s'.threads[t])
    ensures forall u :: u in s'.threads ==> ThreadOk(c, s', s'.threads[u])
  {
    forall u | u in s'.threads ensures ThreadOk(c, s', s'.threads[u]) {
      if u != t { ThreadOkGrows(c, s, s', s.threads[u]); }
    }
  }

  /** The thread holds in th no less than in th0. */
  ghost predicate HoldsAll(c: Config, s: State, th0: Thread, th: Thread) {
    forall n, j: nat {:trigger Holds(th0, n, j)} :: Holds(th0, n, j) ==> Holds(th, n, j) || Settled(c, s, n, j)
  }

  /** A thread between two accesses moves on without touching the shared work. */
  lemma Move(c: Config, s: State, t: Tid, th: Thread, first: nat, active: int)
    requires Inv(c, s) && t in s.threads && s.threads[t].pc != Outside && th.pc != Outside
    requires s.first <= first && TakenBelow(s, first)
    requires active == s.active - (if IsActive(s.threads[t].pc) then 1 else 0) + (if IsActive(th.pc) then 1 else 0)
    requires ThreadOk(c, s, th)
    requires HoldsAll(c, s, s.threads[t], th)
    requires Quiescent(s) ==> IsFree(th)
    ensures Inv(c, Put(s, t, th).(first := first, active := active))
  {
    var s' := Put(s, t, th).(first := first, active := active);
    CountsKept(s, s', t);
    ThreadOkGrows(c, s, s', th);
    ThreadsKept(c, s, s', t);
    MoveWork(c, s, s', t);
    hide WorkOk, Counts, ThreadOk;
  }

  lemma MoveWork(c: Config, s: State, s': State, t: Tid)
    requires WorkOk(c, s) && t in s.threads && t in s'.threads && s' == Put(s, t, s'.threads[t]).(first := s'.first, active := s'.active)
    requires HoldsAll(c, s, s.threads[t], s'.threads[t])
    ensures WorkOk(c, s')
  {
    assert Takes(s, s', t);
    forall n, j: nat | Holds(s.threads[t], n, j)
      ensures Holds(s'.threads[t], n, j) || Settled(c, s', n, j) || OnStack(s', n, j)
    {
    }
    assert Keeps(c, s, s', t);
    hide Takes, Keeps, Settled, Holds;
    WorkKept(c, s, s', t);
  }

  /** A thread that only changes between program points without ranges of their own. */
  lemma SameHolds(c: Config, s: State, th: Thread, pc: Pc, myFirst: nat)
    requires forall n, j: nat :: InHand(th.pc, n, j) ==> InHand(pc, n, j) || Settled(c, s, n, j)
    ensures HoldsAll(c, s, th, th.(pc := pc, myFirst := myFirst))
  {
    forall n, j: nat | Holds(th, n, j) ensures Holds(th.(pc := pc, myFirst := myFirst), n, j) || Settled(c, s, n, j) {
      if InLocal(th, n, j) { assert InLocal(th.(pc := pc, myFirst := myFirst), n, j); }
    }
  }

  /** Move for a thread that keeps its local stack. */
  lemma MovePc(c: Config, s: State, t: Tid, pc: Pc, myFirst: nat, first: nat, active: int)
    requires Inv(c, s) && t in s.threads && s.threads[t].pc != Outside && pc != Outside
    requires s.first <= first && TakenBelow(s, first)
    requires active == s.active - (if IsActive(s.threads[t].pc) then 1 else 0) + (if IsActive(pc) then 1 else 0)
    requires ThreadOk(c, s, s.threads[t].(pc := pc, myFirst := myFirst))
    requires forall n, j: nat :: InHand(s.threads[t].pc, n, j) ==> InHand(pc, n, j) || Settled(c, s, n, j)
    requires Quiescent(s) ==> !pc.Take? && !pc.Scan? && !pc.SetMark?
    ensures Inv(c, Put(s, t, s.threads[t].(pc := pc, myFirst := myFirst)).(first := first, active := active))
  {
    SameHolds(c, s, s.threads[t], pc, myFirst);
    assert Quiescent(s) ==> IsFree(s.threads[t]);
    hide Inv, ThreadOk, Settled, Quiescent, TakenBelow, InHand, HoldsAll;
    Move(c, s, t, s.threads[t].(pc := pc, myFirst := myFirst), first, active);
  }

  lemma HelperCounted(c: Config, s: State, t: Tid)
    requires Inv(c, s) && t in s.threads && s.threads[t].pc != Outside
    ensures 0 < s.helpers && s.progress != NotStarted && s.progress != Returned
  {
    SomeMember(HelperThreads(s), t);
  }

  /** A step that works on nodes: the collection cannot be over yet. */
  lemma WorkingStep(c: Config, s: State, s': State, t: Tid)
    requires Inv(c, s) && OneThread(s, s', t) && !Quiescent(s)
    requires s'.progress == s.progress && s'.first == s.first
    requires s'.active == s.active && s'.helpers == s.helpers
    requires IsActive(s.threads[t].pc) && IsActive(s'.threads[t].pc)
    requires ThreadOk(c, s', s'.threads[t]) && StackOk(s') && WorkOk(c, s')
    ensures Inv(c, s')
  {
    CountsKept(s, s', t);
    ThreadsKept(c, s, s', t);
    HelperCounted(c, s, t);
  }

  /** Active threads are counted. */
  lemma ActiveCounted(s: State, t: Tid, u: Tid)
    requires Counts(s)
    ensures u in s.threads && IsActive(s.threads[u].pc) ==> 1 <= s.active
    ensures t in s.threads && u in s.threads && t != u && IsActive(s.threads[t].pc) && IsActive(s.threads[u].pc) ==> 2 <= s.active
  {
    var a := ActiveThreads(s);
    if u in a {
      SomeMember(a, u);
      if t in a && t != u { SomeMember(a - {u}, t); }
    }
  }

  /** Nobody is active and GC_first_nonempty is past the top: all work is done. */
  lemma QuiescentWhenInactive(c: Config, s: State, t: Tid)
    requires Inv(c, s) && |s.stack| <= s.first && t in s.threads && s.threads[t].local == []
    requires IsActive(s.threads[t].pc) ==> s.active == 1 && s.threads[t].pc == LockedCheck
    requires !IsActive(s.threads[t].pc) ==> s.active == 0
    ensures Quiescent(s)
  {
    forall u | u in s.threads ensures IsFree(s.threads[u]) {
      ActiveCounted(s, t, u);
      assert ThreadOk(c, s, s.threads[u]);
    }
  }

  /** The state after thread t has left GC_mark_local. */
  function LeaveStep(c: Config, s: State, t: Tid): State
    requires t in s.threads
  {
    Put(s, t, s.threads[t].(pc := Outside))
     .(active := 0, helpers := s.helpers - 1, progress := if t == c.initiator then Left else s.progress)
  }

  lemma LeaveWork(c: Config, s: State, t: Tid)
    requires WorkOk(c, s) && t in s.threads && IsFree(s.threads[t])
    ensures WorkOk(c, LeaveStep(c, s, t))
  {
    var s' := LeaveStep(c, s, t);
    assert Takes(s, s', t) && Keeps(c, s, s', t);
    hide Takes, Keeps, Settled, Holds;
    WorkKept(c, s, s', t);
  }

  lemma LeaveInv(c: Config, s: State, t: Tid)
    requires Inv(c, s) && t in s.threads && |s.stack| <= s.first
    requires (s.threads[t].pc == Waiting && s.active == 0) || (s.threads[t].pc == LockedCheck && s.active == 1)
    ensures Inv(c, LeaveStep(c, s, t))
  {
    var s' := LeaveStep(c, s, t);
    assert ThreadOk(c, s, s.threads[t]);
    HelperCounted(c, s, t);
    QuiescentWhenInactive(c, s, t);
    LeaveQuiescent(c, s, t);
    CountsKept(s, s', t);
    ThreadOkGrows(c, s, s', s'.threads[t]);
    ThreadsKept(c, s, s', t);
    LeaveWork(c, s, t);
    hide WorkOk, Counts, ThreadOk, Quiescent;
  }

  lemma LeaveQuiescent(c: Config, s: State, t: Tid)
    requires Quiescent(s) && t in s.threads
    ensures Quiescent(LeaveStep(c, s, t))
  {
  }

  /** The wait loop, entered with or without giving up the thread's active count. */
  ghost function WaitStep(c: Config, s: State, t: Tid): State
    requires t in s.threads
  {
    AfterWait(c, if s.threads[t].pc == Waiting then s else s.(active := s.active - 1), t)
  }

  lemma WaitStepCases(c: Config, s: State, t: Tid)
    requires t in s.threads && (s.threads[t].pc == Waiting || s.threads[t].pc == LockedCheck)
    ensures var active := if s.threads[t].pc == Waiting then s.active else s.active - 1;
      WaitStep(c, s, t) ==
        if 0 < active && |s.stack| <= s.first then Put(s, t, s.threads[t].(pc := Waiting)).(active := active)
        else if active == 0 && |s.stack| <= s.first then LeaveStep(c, s, t)
        else Put(s, t, s.threads[t].(pc := LoopHead)).(active := active + 1)
  {
  }

  lemma AfterWaitInv(c: Config, s: State, t: Tid)
    requires Inv(c, s) && t in s.threads && (s.threads[t].pc == Waiting || s.threads[t].pc == LockedCheck)
    ensures Inv(c, WaitStep(c, s, t))
  {
    var active := if s.threads[t].pc == Waiting then s.active else s.active - 1;
    WaitStepCases(c, s, t);
    if 0 < active && |s.stack| <= s.first {
      MoveIdle(c, s, t, Waiting, active);
    } else if active == 0 && |s.stack| <= s.first {
      LeaveInv(c, s, t);
    } else {
      MoveIdle(c, s, t, LoopHead, active + 1);
    }
  }

  /** A thread with nothing to do changes between waiting and searching. */
  lemma MoveIdle(c: Config, s: State, t: Tid, pc: Pc, active: int)
    requires Inv(c, s) && t in s.threads && (s.threads[t].pc == Waiting || s.threads[t].pc == LockedCheck)
    requires pc == Waiting || pc == LoopHead
    requires active == s.active - (if IsActive(s.threads[t].pc) then 1 else 0) + (if IsActive(pc) then 1 else 0)
    ensures Inv(c, Put(s, t, s.threads[t].(pc := pc)).(active := active))
  {
    assert ThreadOk(c, s, s.threads[t]);
    MovePc(c, s, t, pc, s.threads[t].myFirst, s.first, active);
  }

  lemma StealEndInv(c: Config, s: State, t: Tid)
    requires Inv(c, s) && t in s.threads && s.threads[t].pc.Steal?
    ensures Inv(c, Put(s, t, s.threads[t].(pc := Mark(c.credit), myFirst := s.threads[t].pc.p)))
  {
    assert ThreadOk(c, s, s.threads[t]);
    MovePc(c, s, t, Mark(c.credit), s.threads[t].pc.p, s.first, s.active);
  }

  lemma StealSkipInv(c: Config, s: State, t: Tid)
    requires Inv(c, s) && t in s.threads && s.threads[t].pc.Steal?
    requires s.threads[t].pc.p < s.threads[t].pc.top && s.threads[t].pc.p < |s.stack| && s.stack[s.threads[t].pc.p] == Empty
    ensures var Steal(p, top, count, max) := s.threads[t].pc;
      Inv(c, Put(s, t, s.threads[t].(pc := Steal(p + 1, top, count, max))))
  {
    var Steal(p, top, count, max) := s.threads[t].pc;
    assert ThreadOk(c, s, s.threads[t]);
    MovePc(c, s, t, Steal(p + 1, top, count, max), s.threads[t].myFirst, s.first, s.active);
  }

  lemma StealFoundInv(c: Config, s: State, t: Tid)
    requires Inv(c, s) && t in s.threads && s.threads[t].pc.Steal?
    requires s.threads[t].pc.p < s.threads[t].pc.top && s.threads[t].pc.p < |s.stack| && s.stack[s.threads[t].pc.p].Full?
    ensures var Steal(p, top, count, max) := s.threads[t].pc;
      Inv(c, Put(s, t, s.threads[t].(pc := Take(p, top, count, max, s.stack[p].e))))
  {
    var Steal(p, top, count, max) := s.threads[t].pc;
    assert ThreadOk(c, s, s.threads[t]);
    assert s.stack[p].e.n in s.pushed;
    MovePc(c, s, t, Take(p, top, count, max, s.stack[p].e), s.threads[t].myFirst, s.first, s.active);
  }

  lemma StealInv(c: Config, s: State, t: Tid)
    requires Inv(c, s) && t in s.threads && s.threads[t].pc.Steal?
    ensures Inv(c, RunStep(c, s, t))
  {
    var Steal(p, top, count, max) := s.threads[t].pc;
    if top <= p || max < count || |s.stack| <= p {
      StealEndInv(c, s, t);
    } else if s.stack[p] == Empty {
      StealSkipInv(c, s, t);
    } else {
      StealFoundInv(c, s, t);
    }
  }

  lemma PushedHolds(th: Thread, e: Entry, n: Node, j: nat)
    ensures InLocal(th, n, j) || Covers(e, n, j) ==> InLocal(th.(local := th.local + [e]), n, j)
  {
    var th' := th.(local := th.local + [e]);
    if i :| 0 <= i < |th.local| && Covers(th.local[i], n, j) {
      assert th'.local[i] == th.local[i];
    } else if Covers(e, n, j) {
      assert th'.local[|th.local|] == e;
    }
  }

  lemma TakeWork(c: Config, s: State, t: Tid)
    requires Inv(c, s) && t in s.threads && s.threads[t].pc.Take?
    ensures WorkOk(c, RunStep(c, s, t))
  {
    var s', th := RunStep(c, s, t), s.threads[t];
    assert ThreadOk(c, s, th);
    forall n, j: nat | Holds(th, n, j) ensures Holds(s'.threads[t], n, j) {
      PushedHolds(th.(pc := s'.threads[t].pc), th.pc.e, n, j);
      if InLocal(th, n, j) { assert InLocal(th.(pc := s'.threads[t].pc), n, j); }
    }
    forall i, j: nat | 0 <= i < |s.stack| && s.stack[i].Full? && s'.stack[i] != s.stack[i] && Covers(s.stack[i].e, s.stack[i].e.n, j)
      ensures Holds(s'.threads[t], s.stack[i].e.n, j)
    {
      assert Holds(th, th.pc.e.n, j);
    }
    assert Takes(s, s', t) && Keeps(c, s, s', t);
    hide Takes, Keeps, Settled, Holds, ThreadOk;
    WorkKept(c, s, s', t);
  }

  lemma TakeInv(c: Config, s: State, t: Tid)
    requires Inv(c, s) && t in s.threads && s.threads[t].pc.Take?
    ensures Inv(c, RunStep(c, s, t))
  {
    var s' := RunStep(c, s, t);
    assert ThreadOk(c, s, s.threads[t]);
    TakeWork(c, s, t);
    hide WorkOk, Processed, Holds;
    WorkingStep(c, s, s', t);
  }

  /** What the top entry covers is covered by what takes its place. */
  lemma NextHolds(c: Config, s: State, th: Thread)
    requires th.pc.Mark? && th.local != []
    ensures HoldsAll(c, s, th, NextEntry(c, th))
  {
    var k, th' := |th.local| - 1, NextEntry(c, th);
    var e := th.local[k];
    forall n, j: nat | Holds(th, n, j) ensures Holds(th', n, j) {
      var i :| 0 <= i < |th.local| && Covers(th.local[i], n, j);
      if i < k {
        assert th'.local[i] == th.local[i];
      } else if |th'.local| == k + 2 {
        assert th'.local[k] == Lower(e) && th'.local[k + 1] == Upper(e);
        assert Covers(Lower(e), n, j) || Covers(Upper(e), n, j);
      } else if |th'.local| == k + 1 {
        assert Covers(th'.local[k], n, j) || InHand(th'.pc, n, j);
      } else {
        assert InHand(th'.pc, n, j);
      }
    }
  }

  lemma NextInv(c: Config, s: State, t: Tid)
    requires Inv(c, s) && t in s.threads && s.threads[t].pc.Mark? && s.threads[t].local != []
    ensures Inv(c, Put(s, t, NextEntry(c, s.threads[t])))
  {
    var th := s.threads[t];
    assert ThreadOk(c, s, th);
    assert ThreadOk(c, s, NextEntry(c, th)) by {
      assert th.local[|th.local| - 1].n in s.pushed;
      hide Counts, WorkOk, StackOk, ProgressOk, TakenBelow;
    }
    assert !Quiescent(s);
    NextHolds(c, s, th);
    assert NextEntry(c, th).pc.Mark? || NextEntry(c, th).pc.Scan?;
    assert Put(s, t, NextEntry(c, th)) == Put(s, t, NextEntry(c, th)).(first := s.first, active := s.active);
    assert TakenBelow(s, s.first);
    hide Inv, ThreadOk, HoldsAll, NextEntry, TakenBelow, Quiescent;
    Move(c, s, t, NextEntry(c, th), s.first, s.active);
  }

  lemma MarkInv(c: Config, s: State, t: Tid)
    requires Inv(c, s) && t in s.threads && s.threads[t].pc.Mark?
    ensures Inv(c, RunStep(c, s, t))
  {
    var th := s.threads[t];
    assert ThreadOk(c, s, th);
    if th.local == [] {
      MovePc(c, s, t, LoopHead, th.myFirst, s.first, s.active);
    } else if 0 <= th.pc.credit {
      NextInv(c, s, t);
    } else if c.localSize / 2 <= |th.local| - 1 {
      assert th.local[|th.local|..] == [] && th.local[..|th.local|] == th.local;
      DepositInv(c, s, t, |th.local|, LoopHead);
    } else {
      MovePc(c, s, t, ShareTop, th.myFirst, s.first, s.active);
    }
  }

  /** The next position of a scan. */
  function ScanNext(c: Config, s: State, n: Node, j: nat, end: nat, credit: int): Pc {
    if end <= j || |Words(c, n)| <= j then Mark(credit)
    else if Words(c, n)[j] !in c.objects || Words(c, n)[j] in s.marked then Scan(n, j + 1, end, credit)
    else SetMark(n, j, end, credit)
  }

  lemma ScanInv(c: Config, s: State, t: Tid)
    requires Inv(c, s) && t in s.threads && s.threads[t].pc.Scan?
    ensures Inv(c, RunStep(c, s, t))
  {
    var Scan(n, j, end, credit) := s.threads[t].pc;
    var pc := ScanNext(c, s, n, j, end, credit);
    assert ThreadOk(c, s, s.threads[t]);
    assert ThreadOk(c, s, s.threads[t].(pc := pc)) by { hide Counts, WorkOk, StackOk, ProgressOk, TakenBelow; }
    assert forall n', j': nat :: InHand(s.threads[t].pc, n', j') ==> InHand(pc, n', j') || Settled(c, s, n', j');
    assert !Quiescent(s);
    assert RunStep(c, s, t) == Put(s, t, s.threads[t].(pc := pc)).(first := s.first, active := s.active);
    assert TakenBelow(s, s.first);
    assert pc.Mark? || pc.Scan? || pc.SetMark?;
    hide Inv, RunStep, ThreadOk, InHand, Settled, TakenBelow, Quiescent, ScanNext;
    MovePc(c, s, t, pc, s.threads[t].myFirst, s.first, s.active);
  }

  lemma PushedThreadOk(c: Config, s: State, th: Thread, m: Node, pushed: set<Node>)
    requires forall i :: 0 <= i < |th.local| ==> th.local[i].n in s.pushed
    requires pushed == s.pushed + {m}
    ensures var local := PushLocal(c, th, m).local; forall i :: 0 <= i < |local| ==> local[i].n in pushed
  {
    hide Words;
  }

  lemma SetMarkLeaf(c: Config, s: State, t: Tid, m: Node, next: Pc)
    requires Inv(c, s) && t in s.threads && next.Scan? && next.n in s.pushed && m in c.leaves
    ensures var s' := SetMarkStep(c, s, t, m, next); OneThread(s, s', t) && ThreadOk(c, s', s'.threads[t]) && StackOk(s')
  {
    assert ThreadOk(c, s, s.threads[t]);
    hide Counts, WorkOk, ProgressOk, Words, PushLocal;
  }

  lemma SetMarkPush(c: Config, s: State, t: Tid, m: Node, next: Pc)
    requires Inv(c, s) && t in s.threads && next.Scan? && next.n in s.pushed && m !in c.leaves
    ensures var s' := SetMarkStep(c, s, t, m, next); OneThread(s, s', t) && ThreadOk(c, s', s'.threads[t]) && StackOk(s')
  {
    assert ThreadOk(c, s, s.threads[t]);
    PushedThreadOk(c, s, s.threads[t], m, s.pushed + {m});
    hide Counts, WorkOk, ProgressOk, Words, PushLocal;
  }

  lemma SetMarkThread(c: Config, s: State, t: Tid, m: Node, next: Pc)
    requires Inv(c, s) && t in s.threads && next.Scan? && next.n in s.pushed
    ensures var s' := SetMarkStep(c, s, t, m, next); OneThread(s, s', t) && ThreadOk(c, s', s'.threads[t]) && StackOk(s')
  {
    hide Inv, SetMarkStep, ThreadOk, StackOk, OneThread;
    if m in c.leaves { SetMarkLeaf(c, s, t, m, next); } else { SetMarkPush(c, s, t, m, next); }
  }

  lemma MarkedWork(c: Config, s: State, t: Tid, n: Node, j: nat)
    requires Inv(c, s) && t in s.threads && s.threads[t].pc.SetMark?
    requires RunStep(c, s, t).invalid || Holds(s.threads[t], n, j)
    ensures var s' := RunStep(c, s, t);
      s'.invalid || Holds(s'.threads[t], n, j) || Settled(c, s', n, j)
  {
    var th, s' := s.threads[t], RunStep(c, s, t);
    assert ThreadOk(c, s, th);
    hide Inv, ThreadOk;
    var m := Words(c, th.pc.n)[th.pc.j];
    if !s'.invalid && InLocal(th, n, j) {
      var i :| 0 <= i < |th.local| && Covers(th.local[i], n, j);
      assert s'.threads[t].local[i] == th.local[i];
    }
  }

  lemma SetMarkWork(c: Config, s: State, t: Tid)
    requires Inv(c, s) && t in s.threads && s.threads[t].pc.SetMark?
    ensures WorkOk(c, RunStep(c, s, t))
  {
    var th, s' := s.threads[t], RunStep(c, s, t);
    assert ThreadOk(c, s, th);
    var m := Words(c, th.pc.n)[th.pc.j];
    assert Grows(s, s');
    if !s'.invalid {
      forall n, j: nat | Holds(th, n, j) ensures Holds(s'.threads[t], n, j) || Settled(c, s', n, j) { MarkedWork(c, s, t, n, j); }
      assert Takes(s, s', t) && Keeps(c, s, s', t);
      forall n, j: nat | Owed(c, s', n) && !Owed(c, s, n) && j < |Words(c, n)| ensures Holds(s'.threads[t], n, j) {
        assert n == m && m !in c.leaves;
        var local := s'.threads[t].local;
        assert local[|local| - 1] == Entry(m, 0, |Words(c, m)|) && Covers(local[|local| - 1], n, j);
      }
    }
    hide Takes, Keeps, Settled, Holds, ThreadOk, Words;
    WorkKept(c, s, s', t);
  }

  lemma SetMarkInv(c: Config, s: State, t: Tid)
    requires Inv(c, s) && t in s.threads && s.threads[t].pc.SetMark?
    ensures Inv(c, RunStep(c, s, t))
  {
    var SetMark(n, j, end, credit) := s.threads[t].pc;
    assert ThreadOk(c, s, s.threads[t]);
    SetMarkThread(c, s, t, Words(c, n)[j], Scan(n, j + 1, end, credit));
    SetMarkWork(c, s, t);
    var s' := RunStep(c, s, t);
    assert s' == SetMarkStep(c, s, t, Words(c, n)[j], Scan(n, j + 1, end, credit));
    assert s'.progress == s.progress && s'.first == s.first && s'.active == s.active && s'.helpers == s.helpers;
    assert IsActive(s'.threads[t].pc) && s'.threads.Keys == s.threads.Keys;
    hide RunStep, SetMarkStep, WorkOk, ThreadOk, StackOk, Counts, ProgressOk, Words, TakenBelow;
    assert OneThread(s, s', t) && !Quiescent(s);
    hide OneThread, Quiescent;
    WorkingStep(c, s, s', t);
  }

  /** The loads and tests before GC_do_local_mark shares its entries. */
  lemma ShareInv(c: Config, s: State, t: Tid)
    requires Inv(c, s) && t in s.threads
    requires var pc := s.threads[t].pc; pc.ShareTop? || pc.ShareFirst? || pc.ShareActive? || pc.ShareHelpers?
    ensures Inv(c, RunStep(c, s, t))
  {
    var pc := RunStep(c, s, t).threads[t].pc;
    assert ThreadOk(c, s, s.threads[t]);
    assert ThreadOk(c, s, s.threads[t].(pc := pc)) by { hide Counts, WorkOk, StackOk, ProgressOk, TakenBelow; }
    MovePc(c, s, t, pc, s.threads[t].myFirst, s.first, s.active);
  }

  /** Each atomic step of GC_mark_local keeps the invariant. */
  lemma RunInv(c: Config, s: State, t: Tid)
    requires Inv(c, s) && t in s.threads && s.threads[t].pc != Outside
    ensures Inv(c, RunStep(c, s, t))
  {
    var th := s.threads[t];
    assert ThreadOk(c, s, th);
    match th.pc
    case Take(_, _, _, _, _) => TakeInv(c, s, t);
    case Steal(_, _, _, _) => StealInv(c, s, t);
    case Mark(_) => MarkInv(c, s, t);
    case Scan(_, _, _, _) => ScanInv(c, s, t);
    case SetMark(_, _, _, _) => SetMarkInv(c, s, t);
    case Waiting => AfterWaitInv(c, s, t);
    case Share => DepositInv(c, s, t, ToShare(th), Mark(c.credit));
    case pc =>
      if pc.ShareTop? || pc.ShareFirst? || pc.ShareActive? || pc.ShareHelpers? { ShareInv(c, s, t); } else { SearchInv(c, s, t); }
  }

  lemma SearchInv(c: Config, s: State, t: Tid)
    requires Inv(c, s) && t in s.threads
    requires var pc := s.threads[t].pc; pc.Entering? || pc.LoopHead? || pc.Compare? || pc.ReadTop? || pc.LockedCheck?
    ensures Inv(c, RunStep(c, s, t))
  {
    var pc := s.threads[t].pc;
    if pc.Compare? { CompareInv(c, s, t); }
    else if pc.ReadTop? || pc.LockedCheck? { CheckInv(c, s, t); }
    else { EnterInv(c, s, t); }
  }

  lemma EnterInv(c: Config, s: State, t: Tid)
    requires Inv(c, s) && t in s.threads && (s.threads[t].pc.Entering? || s.threads[t].pc.LoopHead?)
    ensures Inv(c, RunStep(c, s, t))
  {
    var th := s.threads[t];
    assert ThreadOk(c, s, th);
    if th.pc.Entering? {
      MovePc(c, s, t, LoopHead, s.first, s.first, s.active + 1);
    } else {
      MovePc(c, s, t, Compare(s.first), th.myFirst, s.first, s.active);
    }
  }

  lemma CompareInv(c: Config, s: State, t: Tid)
    requires Inv(c, s) && t in s.threads && s.threads[t].pc.Compare?
    ensures Inv(c, RunStep(c, s, t))
  {
    var th := s.threads[t];
    assert ThreadOk(c, s, th);
    if th.myFirst < th.pc.g {
      MovePc(c, s, t, ReadTop, th.pc.g, s.first, s.active);
    } else if th.pc.g < th.myFirst && s.first == th.pc.g {
      MovePc(c, s, t, ReadTop, th.myFirst, th.myFirst, s.active);
    } else {
      MovePc(c, s, t, ReadTop, th.myFirst, s.first, s.active);
    }
  }

  lemma CheckInv(c: Config, s: State, t: Tid)
    requires Inv(c, s) && t in s.threads && (s.threads[t].pc.ReadTop? || s.threads[t].pc.LockedCheck?)
    ensures Inv(c, RunStep(c, s, t))
  {
    var th := s.threads[t];
    assert ThreadOk(c, s, th);
    if |s.stack| != th.myFirst {
      MovePc(c, s, t, StartSteal(th.myFirst, |s.stack|), th.myFirst, s.first, s.active);
    } else if th.pc.ReadTop? {
      MovePc(c, s, t, LockedCheck, th.myFirst, s.first, s.active);
    } else {
      AfterWaitInv(c, s, t);
    }
  }

  lemma StartWork(c: Config, s: State, s': State, t: Tid)
    requires WorkOk(c, s) && t in s.threads && IsFree(s.threads[t]) && t in s'.threads
    requires s'.threads == s.threads[t := s'.threads[t]] && s'.stack == s.stack && s'.marked == s.marked && s'.pushed == s.pushed
    requires s'.invalid == s.invalid
    ensures WorkOk(c, s')
  {
    assert Takes(s, s', t) && Keeps(c, s, s', t);
    hide Takes, Keeps, Settled, Holds;
    WorkKept(c, s, s', t);
  }

  lemma StartInv(c: Config, s: State)
    requires Inv(c, s) && Enabled(c, s, Start)
    ensures Inv(c, Apply(c, s, Start))
  {
    var t := c.initiator;
    var s' := Apply(c, s, Start);
    assert ThreadOk(c, s, s.threads[t]);
    assert s.active == 0 by {
      assert ActiveThreads(s) <= HelperThreads(s);
      assert HelperThreads(s) == {};
    }
    CountsKept(s, s', t);
    ThreadsKept(c, s, s'.(helpWanted := s.helpWanted), t);
    StartWork(c, s, s', t);
    hide WorkOk;
    forall u | u in s'.threads ensures ThreadOk(c, s', s'.threads[u]) {
      if u != t { ThreadOkGrows(c, s, s', s.threads[u]); }
    }
  }

  lemma JoinInv(c: Config, s: State, t: Tid)
    requires Inv(c, s) && Enabled(c, s, Join(t))
    ensures Inv(c, Apply(c, s, Join(t)))
  {
    var s' := Apply(c, s, Join(t));
    assert ThreadOk(c, s, s.threads[t]);
    CountsKept(s, s', t);
    ThreadsKept(c, s, s', t);
    StartWork(c, s, s', t);
    hide WorkOk;
  }

  /** Returning the first k entries of the local stack to the global one. */
  ghost function DepositStep(c: Config, s: State, t: Tid, k: nat, pc: Pc): State
    requires t in s.threads && k <= |s.threads[t].local|
  {
    var th := s.threads[t];
    Deposit(c, Put(s, t, th.(pc := pc, local := th.local[k..])), th.local[..k])
  }

  lemma DepositStackOk(c: Config, s: State, t: Tid, k: nat, pc: Pc)
    requires Inv(c, s) && t in s.threads && k <= |s.threads[t].local|
    ensures StackOk(DepositStep(c, s, t, k, pc)) && Grows(s, DepositStep(c, s, t, k, pc))
  {
    var s' := DepositStep(c, s, t, k, pc);
    assert ThreadOk(c, s, s.threads[t]);
    forall i | 0 <= i < |s'.stack| && s'.stack[i].Full? ensures s'.stack[i].e.n in s'.pushed {
      if |s.stack| <= i { assert s'.stack[i].e == s.threads[t].local[i - |s.stack|]; }
    }
  }

  lemma DepositedHolds(c: Config, s: State, t: Tid, k: nat, pc: Pc, n: Node, j: nat)
    requires t in s.threads && k <= |s.threads[t].local| && InLocal(s.threads[t], n, j)
    ensures var s' := DepositStep(c, s, t, k, pc); !s'.invalid ==> InLocal(s'.threads[t], n, j) || OnStack(s', n, j)
  {
    var th, s' := s.threads[t], DepositStep(c, s, t, k, pc);
    if !s'.invalid {
      var i :| 0 <= i < |th.local| && Covers(th.local[i], n, j);
      if k <= i { assert s'.threads[t].local[i - k] == th.local[i]; }
      else { assert s'.stack[|s.stack| + i] == Full(th.local[i]); }
    }
  }

  lemma DepositWorkOk(c: Config, s: State, t: Tid, k: nat, pc: Pc)
    requires Inv(c, s) && t in s.threads && k <= |s.threads[t].local|
    requires !s.threads[t].pc.Take? && !s.threads[t].pc.Scan? && !s.threads[t].pc.SetMark?
    ensures WorkOk(c, DepositStep(c, s, t, k, pc))
  {
    var th := s.threads[t];
    var s' := DepositStep(c, s, t, k, pc);
    DepositStackOk(c, s, t, k, pc);
    if !s'.invalid {
      forall n, j: nat | Holds(th, n, j) ensures Holds(s'.threads[t], n, j) || OnStack(s', n, j) {
        DepositedHolds(c, s, t, k, pc, n, j);
      }
      assert Takes(s, s', t) && Keeps(c, s, s', t);
    }
    hide Takes, Keeps, Settled, Holds, StackOk, Counts, ProgressOk;
    WorkKept(c, s, s', t);
  }

  lemma DepositInv(c: Config, s: State, t: Tid, k: nat, pc: Pc)
    requires Inv(c, s) && t in s.threads && (s.threads[t].pc.Mark? || s.threads[t].pc == Share) && 0 < k <= |s.threads[t].local|
    requires pc.Mark? || (pc == LoopHead && k == |s.threads[t].local|)
    ensures Inv(c, DepositStep(c, s, t, k, pc))
  {
    var s' := DepositStep(c, s, t, k, pc);
    assert ThreadOk(c, s, s.threads[t]);
    DepositStackOk(c, s, t, k, pc);
    DepositWorkOk(c, s, t, k, pc);
    hide WorkOk, StackOk, Counts;
    WorkingStep(c, s, s', t);
  }

  /** Every step of the parallel marker keeps the invariant. */
  lemma StepInv(c: Config, s: State, a: Action)
    requires Inv(c, s) && Enabled(c, s, a)
    ensures Inv(c, Apply(c, s, a))
  {
    match a
    case Start => StartInv(c, s);
    case Join(t) => JoinInv(c, s, t);
    case Run(t) => RunInv(c, s, t);
    case StopHelp => EndInv(c, s, s.(helpWanted := false, progress := Draining));
    case Finish => EndInv(c, s, s.(progress := Returned));
  }

  lemma EndWork(c: Config, s: State, s': State)
    requires WorkOk(c, s) && s' == s.(helpWanted := false, progress := s'.progress)
    ensures WorkOk(c, s')
  {
    if !s'.invalid {
      forall n, j: nat | Owed(c, s', n) && j < |Words(c, n)| ensures Settled(c, s', n, j) || Pending(s', n, j) {
        assert Owed(c, s, n);
        if !Settled(c, s, n, j) {
          assert Pending(s, n, j);
          if !OnStack(s, n, j) {
            var t :| t in s.threads && Holds(s.threads[t], n, j);
            assert Holds(s'.threads[t], n, j);
          }
        }
      }
    }
  }

  /** The initiator's last steps, when all work is done. */
  lemma EndInv(c: Config, s: State, s': State)
    requires Inv(c, s) && s' == s.(helpWanted := false, progress := s'.progress)
    requires s.progress == Left || s.progress == Draining
    requires s'.progress == Draining || (s'.progress == Returned && s.helpers == 0)
    ensures Inv(c, s')
  {
    assert Counts(s') by { assert ActiveThreads(s') == ActiveThreads(s) && HelperThreads(s') == HelperThreads(s); }
    EndWork(c, s, s');
    hide WorkOk, Counts;
    forall t | t in s'.threads ensures ThreadOk(c, s', s'.threads[t]) { ThreadOkGrows(c, s, s', s.threads[t]); }
  }

  lemma InitialInv(c: Config, s: State)
    requires Initial(c, s)
    ensures Inv(c, s)
  {
    assert ActiveThreads(s) == {} && HelperThreads(s) == {};
    forall n, j: nat | Owed(c, s, n) && j < |Words(c, n)| ensures Pending(s, n, j) {
      var i :| 0 <= i < |s.stack| && s.stack[i].Full? && s.stack[i].e.n == n;
      assert IsWhole(c, s.stack[i].e) && Covers(s.stack[i].e, n, j);
    }
  }

  // ---------- whole runs ----------

  ghost predicate IsRun(c: Config, states: seq<State>, actions: seq<Action>) {
    && |states| == |actions| + 1 && Initial(c, states[0])
    && forall i :: 0 <= i < |actions| ==> Enabled(c, states[i], actions[i]) && states[i + 1] == Apply(c, states[i], actions[i])
  }

  lemma {:induction false} RunKeepsInv(c: Config, states: seq<State>, actions: seq<Action>, n: nat)
    requires IsRun(c, states, actions) && n <= |actions|
    ensures Inv(c, states[n]) && states[0].pushed <= states[n].pushed && states[0].marked <= states[n].marked
  {
    if n == 0 {
      InitialInv(c, states[0]);
    } else {
      RunKeepsInv(c, states, actions, n - 1);
      StepInv(c, states[n - 1], actions[n - 1]);
      StepGrows(c, states[n - 1], actions[n - 1]);
    }
  }

  lemma StepAt(c: Config, states: seq<State>, actions: seq<Action>, n: nat)
    requires IsRun(c, states, actions) && n < |actions|
    ensures Inv(c, states[n]) && Enabled(c, states[n], actions[n]) && states[n + 1] == Apply(c, states[n], actions[n])
    ensures c.before <= states[n].marked
  {
    RunKeepsInv(c, states, actions, n);
  }

  /** The objects to which words of these nodes refer are among the nodes. */
  ghost predicate ClosedNodes(c: Config, nodes: iset<Node>) {
    forall n, j :: n in nodes && 0 <= j < |Words(c, n)| && Words(c, n)[j] in c.objects ==> Words(c, n)[j] in nodes
  }

  ghost predicate InNodes(s: State, nodes: iset<Node>) {
    forall n :: n in s.pushed || n in s.marked ==> n in nodes
  }

  /** The node that thread t is about to mark is m. */
  predicate AboutToMark(c: Config, s: State, t: Tid, m: Node) {
    t in s.threads && s.threads[t].pc.SetMark?
    && s.threads[t].pc.j < |Words(c, s.threads[t].pc.n)| && m == Words(c, s.threads[t].pc.n)[s.threads[t].pc.j]
  }

  lemma StepMarks(c: Config, s: State, a: Action, m: Node)
    requires Enabled(c, s, a) && (m in Apply(c, s, a).pushed || m in Apply(c, s, a).marked)
    ensures m in s.pushed || m in s.marked || (a.Run? && AboutToMark(c, s, a.t, m))
  {
    if a.Run? { RunMarks(c, s, a.t, m); }
    hide RunStep, AboutToMark;
  }

  lemma RunMarks(c: Config, s: State, t: Tid, m: Node)
    requires t in s.threads && s.threads[t].pc != Outside && (m in RunStep(c, s, t).pushed || m in RunStep(c, s, t).marked)
    ensures m in s.pushed || m in s.marked || AboutToMark(c, s, t, m)
  {
    hide Words, StartSteal, PushLocal, NextEntry;
  }

  lemma StepWithin(c: Config, s: State, a: Action, nodes: iset<Node>)
    requires Inv(c, s) && Enabled(c, s, a) && ClosedNodes(c, nodes) && InNodes(s, nodes)
    ensures InNodes(Apply(c, s, a), nodes)
  {
    forall m | m in Apply(c, s, a).pushed || m in Apply(c, s, a).marked ensures m in nodes {
      StepMarks(c, s, a, m);
      hide Apply, WorkOk, ProgressOk, StackOk, Counts;
      if a.Run? && AboutToMark(c, s, a.t, m) { assert ThreadOk(c, s, s.threads[a.t]); }
    }
  }

  /** Only what is found from the entries of the mark stack is ever pushed or marked. */
  lemma {:induction false} RunWithin(c: Config, states: seq<State>, actions: seq<Action>, n: nat, nodes: iset<Node>)
    requires IsRun(c, states, actions) && n <= |actions| && ClosedNodes(c, nodes) && InNodes(states[0], nodes)
    ensures InNodes(states[n], nodes)
  {
    if n != 0 {
      RunWithin(c, states, actions, n - 1, nodes);
      RunKeepsInv(c, states, actions, n - 1);
      StepWithin(c, states[n - 1], actions[n - 1], nodes);
    }
  }

  ghost predicate OnlyObjects(c: Config, s: State) {
    forall m :: m in s.marked ==> m in c.before || m in c.objects
  }

  /** Whatever is marked newly is an object. */
  lemma {:induction false} RunMarksObjects(c: Config, states: seq<State>, actions: seq<Action>, n: nat)
    requires IsRun(c, states, actions) && n <= |actions|
    ensures OnlyObjects(c, states[n])
  {
    hide Inv, Apply, Enabled;
    if n != 0 {
      hide Initial, OnlyObjects;
      RunMarksObjects(c, states, actions, n - 1);
      StepAt(c, states, actions, n - 1);
      MarksObjects(c, states[n - 1], actions[n - 1]);
    }
  }

  lemma MarksObjects(c: Config, s: State, a: Action)
    requires Inv(c, s) && Enabled(c, s, a) && OnlyObjects(c, s)
    ensures OnlyObjects(c, Apply(c, s, a))
  {
    hide Inv, Apply, Enabled;
    forall m | m in Apply(c, s, a).marked ensures m in c.before || m in c.objects {
      if m !in s.marked { MarksObject(c, s, a, m); }
    }
  }

  lemma MarksObject(c: Config, s: State, a: Action, m: Node)
    requires Inv(c, s) && Enabled(c, s, a) && m in Apply(c, s, a).marked && m !in s.marked
    ensures m in c.objects
  {
    if a.Run? {
      assert ThreadOk(c, s, s.threads[a.t]);
      NewMark(c, s, a.t, m);
    }
    hide Inv, RunStep;
  }

  lemma NewMark(c: Config, s: State, t: Tid, m: Node)
    requires t in s.threads && s.threads[t].pc != Outside && m in RunStep(c, s, t).marked && m !in s.marked
    ensures AboutToMark(c, s, t, m)
  {
    hide Words, StartSteal, PushLocal, NextEntry;
  }

  lemma StepGrows(c: Config, s: State, a: Action)
    requires Enabled(c, s, a)
    ensures s.pushed <= Apply(c, s, a).pushed && s.marked <= Apply(c, s, a).marked
  {
    if a.Run? { RunGrows(c, s, a.t); }
    hide RunStep;
  }

  lemma RunGrows(c: Config, s: State, t: Tid)
    requires t in s.threads && s.threads[t].pc != Outside
    ensures s.pushed <= RunStep(c, s, t).pushed && s.marked <= RunStep(c, s, t).marked
  {
    hide Words, StartSteal, PushLocal, NextEntry;
  }

  /**
   When GC_do_parallel_mark returns, no thread is left in the marker, the global stack is used up to
   GC_first_nonempty, and unless the state became MS_INVALID everything that was ever deposited has
   been processed, so that the marks are closed.
   */
  lemma ParallelMarkComplete(c: Config, states: seq<State>, actions: seq<Action>, n: nat)
    requires IsRun(c, states, actions) && n <= |actions| && states[n].progress == Returned
    ensures var s := states[n];
      && s.active == 0 && s.helpers == 0
      && (forall t :: t in s.threads ==> s.threads[t].pc == Outside)
      && (forall i :: 0 <= i < |s.stack| ==> s.stack[i] == Empty) && s.first == |s.stack|
      && (!s.invalid ==> forall m :: m in states[0].pushed || (m in s.marked && m !in c.before) ==> Processed(c, s, m))
  {
    RunKeepsInv(c, states, actions, n);
    var s := states[n];
    forall t | t in s.threads ensures s.threads[t].pc == Outside {
      if s.threads[t].pc != Outside { SomeMember(HelperThreads(s), t); }
    }
    assert ActiveThreads(s) == {};
    if !s.invalid {
      forall m | m in states[0].pushed || (m in s.marked && m !in c.before) ensures Processed(c, s, m) {
        forall j: nat | j < |Words(c, m)| ensures Settled(c, s, m, j) {
          assert Owed(c, s, m) && !Pending(s, m, j);
        }
      }
    }
  }

  /** The threads never all wait for each other: some thread in the marker can do more than wait again. */
  lemma NoDeadlock(c: Config, s: State)
    requires Inv(c, s) && 0 < s.helpers
    ensures exists t :: t in s.threads && s.threads[t].pc != Outside && RunStep(c, s, t) != s
  {
    var t :| t in HelperThreads(s);
    if RunStep(c, s, t) == s {
      assert s.threads[t].pc == Waiting && 0 < s.active by { OnlyWaitingStands(c, s, t); }
      var u :| u in ActiveThreads(s);
      if RunStep(c, s, u) == s { OnlyWaitingStands(c, s, u); }
    }
  }

  lemma OnlyWaitingStands(c: Config, s: State, t: Tid)
    requires Inv(c, s) && t in s.threads && s.threads[t].pc != Outside && RunStep(c, s, t) == s
    ensures s.threads[t].pc == Waiting && 0 < s.active
  {
    var th := s.threads[t];
    assert ThreadOk(c, s, th);
    assert RunStep(c, s, t).threads[t] == th;
    if th.pc.Mark? && th.local != [] && 0 <= th.pc.credit { NextDiffers(c, th); }
  }

  lemma NextDiffers(c: Config, th: Thread)
    requires th.pc.Mark? && th.local != []
    ensures NextEntry(c, th) != th
  {
    assert NextEntry(c, th).pc.Scan? || |NextEntry(c, th).local| != |th.local|;
  }

  // ---------- the mark stacks stay in their arrays ----------

  predicate LocalFits(c: Config, th: Thread) {
    && |th.local| <= c.localSize
    && match th.pc
       case Steal(_, _, count, max) => |th.local| <= count && |th.local| <= max + 1 && max <= ENTRIES_TO_GET
       case Take(_, _, count, max, _) => |th.local| <= count <= max <= ENTRIES_TO_GET
       case _ => true
  }

  /** Neither the global mark stack nor a local one has more entries than it has room for. */
  ghost predicate StacksFit(c: Config, s: State) {
    |s.stack| <= c.capacity && forall t :: t in s.threads ==> LocalFits(c, s.threads[t])
  }

  /** The local stack takes what is stolen at once, and an overflow discards something. */
  predicate RoomToSteal(c: Config) { ENTRIES_TO_GET + 1 <= c.localSize && 1 <= c.discards }

  lemma DepositFits(c: Config, s: State, es: seq<Entry>)
    requires |s.stack| <= c.capacity
    ensures |Deposit(c, s, es).stack| <= c.capacity && Deposit(c, s, es).threads == s.threads
  {
  }

  /** GC_mark_from deals with its top entry, or returns. */
  lemma MarkFits(c: Config, s: State, t: Tid)
    requires StacksFit(c, s) && t in s.threads && s.threads[t].pc.Mark?
    ensures StacksFit(c, RunStep(c, s, t))
  {
    var th := s.threads[t];
    assert LocalFits(c, th);
    if th.local != [] && 0 <= th.pc.credit {
      assert LocalFits(c, NextEntry(c, th));
      hide NextEntry, LocalFits;
    } else if th.local != [] && c.localSize / 2 <= |th.local| - 1 {
      DepositFits(c, Put(s, t, th.(pc := LoopHead, local := [])), th.local);
      hide Deposit;
    }
  }

  lemma SetMarkFits(c: Config, s: State, t: Tid)
    requires StacksFit(c, s) && RoomToSteal(c) && t in s.threads && s.threads[t].pc.SetMark?
    ensures StacksFit(c, RunStep(c, s, t))
  {
    var th := s.threads[t];
    assert LocalFits(c, th);
    if th.pc.j < |Words(c, th.pc.n)| {
      var m := Words(c, th.pc.n)[th.pc.j];
      assert |PushLocal(c, th, m).local| <= c.localSize;
      hide PushLocal, Words;
    }
  }

  /** Stealing starts with an empty local stack. */
  lemma LookFits(c: Config, s: State, t: Tid)
    requires StacksFit(c, s) && RoomToSteal(c) && t in s.threads && ThreadOk(c, s, s.threads[t])
    requires var pc := s.threads[t].pc; pc.Entering? || pc.LoopHead? || pc.Compare? || pc.ReadTop? || pc.LockedCheck? || pc.Waiting?
    ensures StacksFit(c, RunStep(c, s, t))
  {
    assert LocalFits(c, s.threads[t]) && s.threads[t].local == [];
    hide Words, Weight, TakenBelow, ThreadOk;
  }

  lemma RunFits(c: Config, s: State, t: Tid)
    requires StacksFit(c, s) && RoomToSteal(c) && t in s.threads && s.threads[t].pc != Outside && ThreadOk(c, s, s.threads[t])
    ensures StacksFit(c, RunStep(c, s, t))
  {
    var th := s.threads[t];
    assert LocalFits(c, th);
    match th.pc
    case Mark(_) => MarkFits(c, s, t);
    case SetMark(_, _, _, _) => SetMarkFits(c, s, t);
    case Share =>
      DepositFits(c, Put(s, t, th.(pc := Mark(c.credit), local := th.local[ToShare(th)..])), th.local[..ToShare(th)]);
      hide Deposit, ThreadOk;
    case pc =>
      if pc.Entering? || pc.LoopHead? || pc.Compare? || pc.ReadTop? || pc.LockedCheck? || pc.Waiting? {
        LookFits(c, s, t);
      } else {
        hide Words, Weight, ThreadOk, StartSteal, Deposit, NextEntry, PushLocal, AfterWait;
      }
  }

  lemma StepFits(c: Config, s: State, a: Action)
    requires StacksFit(c, s) && RoomToSteal(c) && Inv(c, s) && Enabled(c, s, a)
    ensures StacksFit(c, Apply(c, s, a))
  {
    match a
    case Run(t) =>
      assert ThreadOk(c, s, s.threads[t]);
      hide Inv, ThreadOk, RunStep;
      RunFits(c, s, t);
    case _ =>
  }

  /** No interleaving writes behind a mark stack. */
  lemma {:induction false} StacksNeverOverrun(c: Config, states: seq<State>, actions: seq<Action>, n: nat)
    requires IsRun(c, states, actions) && n <= |actions| && RoomToSteal(c) && |states[0].stack| <= c.capacity
    ensures StacksFit(c, states[n])
  {
    if n != 0 {
      StacksNeverOverrun(c, states, actions, n - 1);
      RunKeepsInv(c, states, actions, n - 1);
      hide Inv, StacksFit;
      StepFits(c, states[n - 1], actions[n - 1]);
    }
  }
}
