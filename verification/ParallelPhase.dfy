/**
How the interleaved parallel marker of ParallelMark serves the mark phase of MarkModel: whatever the threads do
between the start and the return of GC_do_parallel_mark, the marks come out as ParallelMarks says.
 */
module ParallelPhase {
  import M = MarkModel
  import P = ParallelMark
  import Pr = ParallelProgress
  import B = ShareBound
  import S = MarkSafety
  import X = MarkExact

  // Objects of the heap are the even nodes, entries of the mark stack the odd ones.

  function ObjectNode(o: M.Obj): P.Node { 2 * o }

  function EntryNode(k: nat): P.Node { 2 * k + 1 }

  /** The nodes that the words refer to, if they refer to objects. */
  function NodesFor(ws: seq<M.Word>): (ns: seq<P.Node>)
    ensures |ns| == |ws| && forall j :: 0 <= j < |ws| ==> ns[j] == ObjectNode(ws[j])
  {
    seq(|ws|, j requires 0 <= j < |ws| => ObjectNode(ws[j]))
  }

  /** The words in the range of the entry. */
  function EntryWords(s: M.State, e: M.Entry): seq<M.Word> {
    var ws := M.WordsOf(s, e.src);
    var hi := if e.hi <= |ws| then e.hi else |ws|;
    if e.lo <= hi then ws[e.lo..hi] else []
  }

  /** The words that node n stands for in state s of the mark phase. */
  function NodeWords(s: M.State, n: P.Node): seq<M.Word> {
    if n % 2 == 0 then M.FieldsOf(s.heap, n / 2)
    else if n / 2 < |s.stack| then EntryWords(s, s.stack[n / 2])
    else []
  }

  /** The threads find the mark stack and the heap of s, and the sizes of the build. */
  ghost predicate Encodes(c: P.Config, p: P.State, s: M.State) {
    && (forall n: P.Node :: P.Words(c, n) == NodesFor(NodeWords(s, n)))
    && (forall n: P.Node :: n in c.objects <==> n % 2 == 0 && n / 2 in s.heap.home)
    && (forall n: P.Node :: n in c.before <==> n % 2 == 0 && n / 2 in s.marked)
    && |p.stack| == |s.stack| && (forall k: nat :: k < |s.stack| ==> p.stack[k] == P.Full(EntryOf(s, k)))
    && c.capacity == s.capacity && c.share == M.SHARE_WORDS && |p.threads| <= M.MARKERS
  }

  function EntryOf(s: M.State, k: nat): P.Entry
    requires k < |s.stack|
  {
    P.Entry(EntryNode(k), 0, |EntryWords(s, s.stack[k])|)
  }

  ghost function MarksOf(p: P.State): set<M.Obj> {
    set n | n in p.marked && n % 2 == 0 :: n / 2
  }

  lemma HalfOf(o: nat)
    ensures ObjectNode(o) % 2 == 0 && ObjectNode(o) / 2 == o && EntryNode(o) % 2 == 1 && EntryNode(o) / 2 == o
  {
  }

  lemma MarkedObject(p: P.State, o: M.Obj)
    ensures o in MarksOf(p) <==> ObjectNode(o) in p.marked
  {
    HalfOf(o);
    if o in MarksOf(p) {
      var n :| n in p.marked && n % 2 == 0 && n / 2 == o;
      assert n == ObjectNode(o);
    }
  }

  /** The word is in the object or the range of the node. */
  ghost predicate Refers(s: M.State, n: P.Node, w: M.Word) { w in NodeWords(s, n) }

  lemma ProcessedRefers(c: P.Config, p0: P.State, p: P.State, s: M.State, n: P.Node, w: M.Word)
    requires Encodes(c, p0, s) && P.Processed(c, p, n) && Refers(s, n, w) && w in s.heap.home
    ensures w in MarksOf(p)
  {
    var ws := NodeWords(s, n);
    var j :| 0 <= j < |ws| && ws[j] == w;
    HalfOf(w);
    assert P.Words(c, n)[j] == ObjectNode(w) && ObjectNode(w) in c.objects && P.Settled(c, p, n, j);
    MarkedObject(p, w);
  }

  /** The nodes of the objects in m, and all entries. */
  ghost function NodesOf(m: set<M.Obj>): iset<P.Node> {
    iset n: P.Node | n % 2 == 1 || n / 2 in m
  }

  /** If all that entries and members of m refer to is in m, the nodes are closed. */
  lemma NodesClosed(c: P.Config, p: P.State, s: M.State, m: set<M.Obj>)
    requires Encodes(c, p, s)
    requires forall n, w :: n in NodesOf(m) && Refers(s, n, w) && w in s.heap.home ==> w in m
    ensures P.ClosedNodes(c, NodesOf(m))
  {
    forall n, j | n in NodesOf(m) && 0 <= j < |P.Words(c, n)| && P.Words(c, n)[j] in c.objects ensures P.Words(c, n)[j] in NodesOf(m) {
      var w := NodeWords(s, n)[j];
      assert P.Words(c, n)[j] == ObjectNode(w);
      HalfOf(w);
      assert Refers(s, n, w) && w in s.heap.home;
    }
  }

  lemma StartsWithin(c: P.Config, p: P.State, s: M.State, m: set<M.Obj>)
    requires P.Initial(c, p) && Encodes(c, p, s) && s.marked <= m
    ensures P.InNodes(p, NodesOf(m))
  {
    forall n | n in p.pushed || n in p.marked ensures n in NodesOf(m) {
      if n in p.pushed {
        var k :| 0 <= k < |p.stack| && p.stack[k].Full? && p.stack[k].e.n == n;
        assert n == EntryNode(k);
        HalfOf(k);
      }
    }
  }

  /** Parallel marking marks only what lies in every set that holds the marks and all that is referred to. */
  lemma MarksWithin(c: P.Config, states: seq<P.State>, actions: seq<P.Action>, n: nat, s: M.State, m: set<M.Obj>)
    requires P.IsRun(c, states, actions) && n <= |actions| && Encodes(c, states[0], s) && s.marked <= m
    requires forall n, w :: n in NodesOf(m) && Refers(s, n, w) && w in s.heap.home ==> w in m
    ensures MarksOf(states[n]) <= m
  {
    NodesClosed(c, states[0], s, m);
    StartsWithin(c, states[0], s, m);
    P.RunWithin(c, states, actions, n, NodesOf(m));
    forall o | o in MarksOf(states[n]) ensures o in m {
      MarkedObject(states[n], o);
      HalfOf(o);
      assert ObjectNode(o) in NodesOf(m);
    }
  }

  lemma EntryRefers(s: M.State, k: nat, i: nat)
    requires k < |s.stack| && s.stack[k].lo <= i < s.stack[k].hi && i < |M.WordsOf(s, s.stack[k].src)|
    ensures Refers(s, EntryNode(k), M.WordsOf(s, s.stack[k].src)[i])
  {
    HalfOf(k);
    var e := s.stack[k];
    assert EntryWords(s, e)[i - e.lo] == M.WordsOf(s, e.src)[i];
  }

  lemma EntryIsRoot(s: M.State, m: set<M.Obj>, n: P.Node, w: M.Word)
    requires S.MarksClosed(s, m) && X.Within(s, m) && n in NodesOf(m) && Refers(s, n, w) && w in s.heap.home
    ensures w in m
  {
    if n % 2 == 1 {
      var e := s.stack[n / 2];
      assert w in M.WordsOf(s, e.src);
      match e.src
      case Object(o) => assert w in M.FieldsOf(s.heap, o);
      case StaticArea(k) => assert M.IsRootWord(s, w);
    }
  }

  lemma ClaimsBound(c: P.Config, slots: seq<P.Slot>, stack: seq<M.Entry>)
    requires c.share == M.SHARE_WORDS && |slots| == |stack|
    requires forall k: nat :: k < |stack| ==> slots[k].Full? && slots[k].e.size <= M.RangeOf(stack[k])
    ensures Pr.Claims(c, M.MARKERS, slots, -1) <= M.Taken(stack)
  {
    if slots != [] {
      var k := |slots| - 1;
      ClaimsBound(c, slots[..k], stack[..k]);
      B.ScannedMonotone(c.share, M.MARKERS, slots[k].e.size, M.RangeOf(stack[k]));
    }
  }

  lemma FewerThreads(c: P.Config, k: nat, slots: seq<P.Slot>)
    requires 2 <= c.share && k <= M.MARKERS
    ensures Pr.StackBound(c, k, slots) <= Pr.StackBound(c, M.MARKERS, slots)
  {
    Pr.ClaimsThreads(c, k, M.MARKERS, slots);
    B.Product(k, M.MARKERS, Pr.Claims(c, k, slots, -1), Pr.Claims(c, M.MARKERS, slots, -1));
    hide Pr.Claims;
  }

  /** The bound in terms of the mark stack covers the bound in terms of the threads. */
  lemma BoundCovers(c: P.Config, p: P.State, s: M.State)
    requires Encodes(c, p, s)
    ensures Pr.StackBound(c, |p.threads|, p.stack) <= M.StackBound(s.stack)
  {
    forall k: nat | k < |s.stack| ensures p.stack[k].Full? && p.stack[k].e.size <= M.RangeOf(s.stack[k]) {
      assert p.stack[k] == P.Full(EntryOf(s, k));
    }
    FewerThreads(c, |p.threads|, p.stack);
    ClaimsBound(c, p.stack, s.stack);
    B.Scale(M.MARKERS, Pr.Claims(c, M.MARKERS, p.stack, -1), M.Taken(s.stack));
    hide Pr.Claims, M.Taken;
  }

  /** No range on the mark stack has 4 GB. */
  ghost predicate RangesOk(s: M.State) {
    forall k :: 0 <= k < |s.stack| ==> M.RangeOf(s.stack[k]) <= B.LONGEST
  }

  lemma RangesEncoded(c: P.Config, p: P.State, s: M.State)
    requires Encodes(c, p, s) && RangesOk(s)
    ensures Pr.Ranges(p.stack)
  {
    forall k | 0 <= k < |s.stack| ensures p.stack[k].e.size <= B.LONGEST {
      assert p.stack[k] == P.Full(EntryOf(s, k));
      assert M.RangeOf(s.stack[k]) <= B.LONGEST;
    }
  }

  lemma StackMarksNothing(c: P.Config, states: seq<P.State>, n: nat, s: M.State, a: M.Answer)
    requires n < |states| && Encodes(c, states[0], s) && a.marks == MarksOf(states[n]) && M.Fruitless(s, a)
    requires c.before <= states[n].marked && forall m :: m in states[n].marked ==> m % 2 == 0
    ensures states[n].marked == c.before
  {
    forall m | m in states[n].marked ensures m in c.before {
      assert m == ObjectNode(m / 2);
      MarkedObject(states[n], m / 2);
    }
  }

  /** If the threads lose entries and mark nothing, the mark stack was too small. */
  lemma FruitlessTooSmall(c: P.Config, states: seq<P.State>, actions: seq<P.Action>, n: nat, s: M.State, a: M.Answer)
    requires P.IsRun(c, states, actions) && n <= |actions| && Encodes(c, states[0], s) && Pr.Sized(c) && RangesOk(s)
    requires a.marks == MarksOf(states[n]) && a.overflow == states[n].invalid && M.Fruitless(s, a)
    ensures s.capacity < M.StackBound(s.stack)
  {
    P.RunKeepsInv(c, states, actions, n);
    OnlyObjectsMarked(c, states, actions, n, s);
    StackMarksNothing(c, states, n, s, a);
    if M.StackBound(s.stack) <= s.capacity {
      BoundCovers(c, states[0], s);
      RangesEncoded(c, states[0], s);
      hide Pr.StackBound, M.StackBound, Encodes, Pr.Ranges, Pr.Sized;
      Pr.NeverFruitless(c, states, actions, n);
    }
  }

  /** Only nodes of objects are marked. */
  lemma OnlyObjectsMarked(c: P.Config, states: seq<P.State>, actions: seq<P.Action>, n: nat, s: M.State)
    requires P.IsRun(c, states, actions) && n <= |actions| && Encodes(c, states[0], s)
    ensures forall m :: m in states[n].marked ==> m % 2 == 0
  {
    P.RunMarksObjects(c, states, actions, n);
  }

  /** What the threads leave behind when GC_do_parallel_mark returns is a possible answer, and marks no more than needed. */
  lemma RunGivesAnswer(c: P.Config, states: seq<P.State>, actions: seq<P.Action>, n: nat, s: M.State, a: M.Answer)
    requires P.IsRun(c, states, actions) && n <= |actions| && states[n].progress == P.Returned && Encodes(c, states[0], s)
    requires s.marked <= s.heap.home.Keys && a.marks == MarksOf(states[n]) && a.overflow == states[n].invalid
    requires M.Fruitless(s, a) ==> Pr.Sized(c) && RangesOk(s)
    ensures M.ParallelMarks(s, a) && X.Needed(s, a)
  {
    var p := states[n];
    P.RunKeepsInv(c, states, actions, n);
    forall o | o in s.marked ensures o in a.marks {
      HalfOf(o);
      assert ObjectNode(o) in c.before;
      MarkedObject(p, o);
    }
    MarksWithin(c, states, actions, n, s, s.heap.home.Keys);
    if !a.overflow { NothingMissed(c, states, actions, n, s); }
    if M.Fruitless(s, a) { FruitlessTooSmall(c, states, actions, n, s, a); }
    forall m | S.MarksClosed(s, m) && X.Within(s, m) ensures a.marks <= m {
      forall n', w | n' in NodesOf(m) && Refers(s, n', w) && w in s.heap.home ensures w in m { EntryIsRoot(s, m, n', w); }
      MarksWithin(c, states, actions, n, s, m);
    }
  }

  /** Unless entries were lost, the words of all entries and of all newly marked objects are marked. */
  lemma NothingMissed(c: P.Config, states: seq<P.State>, actions: seq<P.Action>, n: nat, s: M.State)
    requires P.IsRun(c, states, actions) && n <= |actions| && states[n].progress == P.Returned && Encodes(c, states[0], s)
    requires !states[n].invalid
    ensures M.StackMarked(s, MarksOf(states[n])) && M.NewlyScanned(s, MarksOf(states[n]))
  {
    var p0, p := states[0], states[n];
    P.ParallelMarkComplete(c, states, actions, n);
    forall k, i: nat | 0 <= k < |s.stack| && s.stack[k].lo <= i < s.stack[k].hi && i < |M.WordsOf(s, s.stack[k].src)|
      ensures M.WordsOf(s, s.stack[k].src)[i] in s.heap.home ==> M.WordsOf(s, s.stack[k].src)[i] in MarksOf(p)
    {
      if M.WordsOf(s, s.stack[k].src)[i] in s.heap.home {
        EntryRefers(s, k, i);
        assert p0.stack[k] == P.Full(EntryOf(s, k)) && EntryNode(k) in p0.pushed;
        ProcessedRefers(c, p0, p, s, EntryNode(k), M.WordsOf(s, s.stack[k].src)[i]);
      }
    }
    forall o, w | o in MarksOf(p) && o !in s.marked && w in M.FieldsOf(s.heap, o) && w in s.heap.home ensures w in MarksOf(p) {
      MarkedObject(p, o);
      HalfOf(o);
      assert ObjectNode(o) !in c.before;
      ProcessedRefers(c, p0, p, s, ObjectNode(o), w);
    }
  }

  /**
   * A mark phase that ends with parallel marking leaves nothing out: with the world stopped and no entry lost,
   * every object is marked that is reachable without stray words, whatever the interleaving of the threads.
   */
  lemma ParallelPhaseComplete(c: P.Config, states: seq<P.State>, actions: seq<P.Action>, n: nat, s: M.State, a: M.Answer)
    requires P.IsRun(c, states, actions) && n <= |actions| && states[n].progress == P.Returned && Encodes(c, states[0], s)
    requires S.Inv(s) && s.stopped && !s.aborted && s.parallel && s.phase == M.RootsPushed
    requires a.marks == MarksOf(states[n]) && a.overflow == states[n].invalid && !states[n].invalid
    ensures M.MarkSome(s, a).done && M.OnlyStrayMissed(M.MarkSome(s, a).s)
    ensures s.stray == {} ==> M.AllReachableMarked(M.MarkSome(s, a).s)
  {
    assert s.marked <= s.heap.home.Keys;
    hide S.Inv, Encodes, P.IsRun, M.ParallelMarks, M.AllReachableMarked, M.OnlyStrayMissed;
    RunGivesAnswer(c, states, actions, n, s, a);
    assert M.MarkSome(s, a).done;
    S.MarkSomeComplete(s, a);
  }
}
