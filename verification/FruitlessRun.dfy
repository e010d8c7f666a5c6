/**
Runs of parallel marking that lose entries and mark nothing, with the sizes of a 64-bit build, for every capacity of
the mark stack.  The mark stack is full; one thread splits a range of 4096 words without pointers; the other scans the
rest and waits for work; and when the first comes to share what it has left, there is no room on the mark stack.
 */
module FruitlessRun {
  import opened ParallelMark
  import B = ShareBound
  import Pr = ParallelProgress

  const WORDS: nat := 4096
  const SMALL: nat := 160
  const RANGE: Entry := Entry(0, 0, WORDS)

  /** The nodes are static areas without pointers, a long one and n short ones; thread 0 initiates the marking. */
  function Build(n: nat): Config {
    Config(Areas(n), {}, {}, {}, 0, n + 1, 4096, 512, 256, 512, 32)
  }

  function Areas(n: nat): map<Node, seq<Node>> { map i: nat | i <= n :: seq(SizeOf(i), j => 0) }

  function SizeOf(i: nat): nat { if i == 0 then WORDS else SMALL }

  function Area(i: nat): Entry { Entry(i, 0, SizeOf(i)) }

  /** The mark stack of n + 1 areas, of which the first k have been taken. */
  function Stack(n: nat, k: nat): seq<Slot> {
    seq(n + 1, i requires 0 <= i => if i < k then Empty else Full(Area(i)))
  }

  const IDLE: Thread := Thread(Outside, 0, [])

  function Begin(n: nat): State {
    State(Stack(n, 0), 0, 0, 0, false, false, {}, map[0 := IDLE, 1 := IDLE], NotStarted, Areas(n).Keys, {})
  }

  /** The actions lead from s to s'. */
  ghost predicate Leads(c: Config, s: State, actions: seq<Action>, s': State)
    decreases |actions|
  {
    if actions == [] then s' == s
    else Enabled(c, s, actions[0]) && Leads(c, Apply(c, s, actions[0]), actions[1..], s')
  }

  lemma {:induction false} LeadsOn(c: Config, s: State, actions: seq<Action>, m: State, more: seq<Action>, s': State)
    requires Leads(c, s, actions, m) && Leads(c, m, more, s')
    ensures Leads(c, s, actions + more, s')
    decreases |actions|
  {
    hide Apply, Enabled;
    if actions == [] {
      assert actions + more == more;
    } else {
      assert (actions + more)[1..] == actions[1..] + more;
      LeadsOn(c, Apply(c, s, actions[0]), actions[1..], m, more, s');
    }
  }

  lemma Then(c: Config, s: State, actions: seq<Action>, m: State, a: Action) returns (all: seq<Action>)
    requires Leads(c, s, actions, m) && Enabled(c, m, a)
    ensures Leads(c, s, all, Apply(c, m, a))
  {
    hide Apply, Enabled;
    all := actions + [a];
    assert [a][1..] == [];
    LeadsOn(c, s, actions, m, [a], Apply(c, m, a));
  }

  /** All states on the way. */
  lemma {:induction false} StatesOf(c: Config, s: State, actions: seq<Action>, s': State) returns (states: seq<State>)
    requires Leads(c, s, actions, s')
    ensures |states| == |actions| + 1 && states[0] == s && states[|actions|] == s'
    ensures forall i :: 0 <= i < |actions| ==> Enabled(c, states[i], actions[i]) && states[i + 1] == Apply(c, states[i], actions[i])
    decreases |actions|
  {
    hide Apply, Enabled;
    if actions == [] {
      states := [s];
    } else {
      var rest := StatesOf(c, Apply(c, s, actions[0]), actions[1..], s');
      states := [s] + rest;
      forall i | 0 <= i < |actions| ensures Enabled(c, states[i], actions[i]) && states[i + 1] == Apply(c, states[i], actions[i]) {
        if i != 0 { assert states[i] == rest[i - 1] && actions[i] == actions[1..][i - 1]; }
      }
    }
  }

  /** A thread whose words refer to no objects scans them to the end. */
  lemma {:induction false} ScanThrough(c: Config, s0: State, actions: seq<Action>, s: State, t: Tid) returns (all: seq<Action>)
    requires Leads(c, s0, actions, s) && t in s.threads && s.threads[t].pc.Scan? && c.objects == {}
    ensures Leads(c, s0, all, Put(s, t, s.threads[t].(pc := Mark(s.threads[t].pc.credit))))
    decreases var pc := s.threads[t].pc; if pc.j < pc.end then pc.end - pc.j else 0
  {
    hide Leads;
    var th := s.threads[t];
    var Scan(n, j, end, credit) := th.pc;
    all := Then(c, s0, actions, s, Run(t));
    if j < end && j < |Words(c, n)| {
      var s' := Put(s, t, th.(pc := Scan(n, j + 1, end, credit)));
      all := ScanThrough(c, s0, all, s', t);
      assert Put(s', t, th.(pc := Mark(credit))) == Put(s, t, th.(pc := Mark(credit)));
    }
  }

  // ---------- until one thread has the range and the other waits ----------

  /** A state of the run: k entries are taken, and the threads are a and b. */
  function Two(n: nat, k: nat, first: nat, active: int, helpers: int, invalid: bool, a: Thread, b: Thread): State {
    State(Stack(n, k), first, active, helpers, true, invalid, {}, map[0 := a, 1 := b], Marking, Areas(n).Keys, {1})
  }

  lemma RunFirst(n: nat, k: nat, first: nat, active: int, helpers: int, invalid: bool, a: Thread, a': Thread, b: Thread)
    ensures Put(Two(n, k, first, active, helpers, invalid, a, b), 0, a') == Two(n, k, first, active, helpers, invalid, a', b)
  {
    assert map[0 := a, 1 := b][0 := a'] == map[0 := a', 1 := b];
  }

  lemma RunSecond(n: nat, k: nat, first: nat, active: int, helpers: int, invalid: bool, a: Thread, b: Thread, b': Thread)
    ensures Put(Two(n, k, first, active, helpers, invalid, a, b), 1, b') == Two(n, k, first, active, helpers, invalid, a, b')
  {
    assert map[0 := a, 1 := b][1 := b'] == map[0 := a, 1 := b'];
  }

  const MARK_ALL: Thread := Thread(Mark(512), 1, [RANGE])
  const ENTERING: Thread := Thread(Entering, 0, [])

  function Wait(n: nat): Thread { Thread(Waiting, n + 1, []) }

  lemma BothEnter(n: nat) returns (all: seq<Action>)
    ensures Leads(Build(n), Begin(n), all, Two(n, 0, 0, 0, 2, false, ENTERING, ENTERING))
  {
    assert Leads(Build(n), Begin(n), [], Begin(n));
    all := Then(Build(n), Begin(n), [], Begin(n), Start);
    var s1 := Apply(Build(n), Begin(n), Start);
    assert map[0 := IDLE, 1 := IDLE][0 := ENTERING] == map[0 := ENTERING, 1 := IDLE];
    all := Then(Build(n), Begin(n), all, s1, Join(1));
    assert map[0 := ENTERING, 1 := IDLE][1 := ENTERING] == map[0 := ENTERING, 1 := ENTERING];
    assert Apply(Build(n), s1, Join(1)) == Two(n, 0, 0, 0, 2, false, ENTERING, ENTERING);
  }

  lemma InitiatorTakes(n: nat) returns (all: seq<Action>)
    ensures Leads(Build(n), Begin(n), all, Two(n, 1, 0, 1, 2, false, MARK_ALL, ENTERING))
  {
    all := BothEnter(n);
    var s1 := Two(n, 0, 0, 0, 2, false, ENTERING, ENTERING);
    all := Then(Build(n), Begin(n), all, s1, Run(0));
    RunFirst(n, 0, 0, 0, 2, false, ENTERING, Thread(LoopHead, 0, []), ENTERING);
    assert RunStep(Build(n), s1, 0) == Two(n, 0, 0, 1, 2, false, Thread(LoopHead, 0, []), ENTERING);
    hide Build, Begin, Leads, RunStep;
    all := InitiatorLooks(n, all);
  }

  /** A step of the initiator that only changes its own variables, while the helper enters. */
  lemma FirstThen(n: nat, k: nat, actions: seq<Action>, th: Thread, th': Thread) returns (all: seq<Action>)
    requires Leads(Build(n), Begin(n), actions, Two(n, k, 0, 1, 2, false, th, ENTERING)) && th.pc != Outside
    requires RunStep(Build(n), Two(n, k, 0, 1, 2, false, th, ENTERING), 0) == Put(Two(n, k, 0, 1, 2, false, th, ENTERING), 0, th')
    ensures Leads(Build(n), Begin(n), all, Two(n, k, 0, 1, 2, false, th', ENTERING))
  {
    hide RunStep, Build, Begin, Leads;
    all := Then(Build(n), Begin(n), actions, Two(n, k, 0, 1, 2, false, th, ENTERING), Run(0));
    RunFirst(n, k, 0, 1, 2, false, th, th', ENTERING);
  }

  lemma InitiatorLooks(n: nat, actions: seq<Action>) returns (all: seq<Action>)
    requires Leads(Build(n), Begin(n), actions, Two(n, 0, 0, 1, 2, false, Thread(LoopHead, 0, []), ENTERING))
    ensures Leads(Build(n), Begin(n), all, Two(n, 1, 0, 1, 2, false, MARK_ALL, ENTERING))
  {
    hide Build, Begin, Leads;
    all := FirstThen(n, 0, actions, Thread(LoopHead, 0, []), Thread(Compare(0), 0, []));
    all := FirstThen(n, 0, all, Thread(Compare(0), 0, []), Thread(ReadTop, 0, []));
    var steal := StartSteal(0, n + 1);
    all := FirstThen(n, 0, all, Thread(ReadTop, 0, []), Thread(steal, 0, []));
    all := FirstThen(n, 0, all, Thread(steal, 0, []), Thread(Take(0, n + 1, 0, steal.max, RANGE), 0, []));
    all := InitiatorClears(n, all, steal.max);
  }

  lemma TakeSlot(n: nat, k: nat)
    requires k <= n
    ensures |Stack(n, k)| == n + 1 && Stack(n, k)[k] == Full(Area(k)) && Stack(n, k)[k := Empty] == Stack(n, k + 1)
  {
  }

  lemma InitiatorClears(n: nat, actions: seq<Action>, max: nat) returns (all: seq<Action>)
    requires Leads(Build(n), Begin(n), actions, Two(n, 0, 0, 1, 2, false, Thread(Take(0, n + 1, 0, max, RANGE), 0, []), ENTERING)) && max < 6
    ensures Leads(Build(n), Begin(n), all, Two(n, 1, 0, 1, 2, false, MARK_ALL, ENTERING))
  {
    TakeRange(n, max);
    hide Build, Begin, Leads, RunStep;
    all := Then(Build(n), Begin(n), actions, Two(n, 0, 0, 1, 2, false, Thread(Take(0, n + 1, 0, max, RANGE), 0, []), ENTERING), Run(0));
    all := InitiatorStops(n, all, max);
  }

  lemma TakeRange(n: nat, max: nat)
    ensures RunStep(Build(n), Two(n, 0, 0, 1, 2, false, Thread(Take(0, n + 1, 0, max, RANGE), 0, []), ENTERING), 0)
            == Two(n, 1, 0, 1, 2, false, Thread(Steal(1, n + 1, 129, max), 0, [RANGE]), ENTERING)
  {
    TakeSlot(n, 0);
    assert Weight(Build(n), RANGE) == 129;
    assert [] + [RANGE] == [RANGE];
    RunFirst(n, 1, 0, 1, 2, false, Thread(Take(0, n + 1, 0, max, RANGE), 0, []), Thread(Steal(1, n + 1, 129, max), 0, [RANGE]), ENTERING);
  }

  lemma InitiatorStops(n: nat, actions: seq<Action>, max: nat) returns (all: seq<Action>)
    requires Leads(Build(n), Begin(n), actions, Two(n, 1, 0, 1, 2, false, Thread(Steal(1, n + 1, 129, max), 0, [RANGE]), ENTERING)) && max < 6
    ensures Leads(Build(n), Begin(n), all, Two(n, 1, 0, 1, 2, false, MARK_ALL, ENTERING))
  {
    all := FirstThen(n, 1, actions, Thread(Steal(1, n + 1, 129, max), 0, [RANGE]), MARK_ALL);
  }

  // ---------- the helper scans the other areas, and waits ----------

  /** The initiator is about to scan its range; the helper works. */
  function Helping(n: nat, k: nat, first: nat, b: Thread): State { Two(n, k, first, 2, 2, false, MARK_ALL, b) }

  /** A step of the helper that only changes its own variables. */
  lemma HelperThen(n: nat, k: nat, first: nat, actions: seq<Action>, th: Thread, th': Thread) returns (all: seq<Action>)
    requires Leads(Build(n), Begin(n), actions, Helping(n, k, first, th)) && th.pc != Outside
    requires RunStep(Build(n), Helping(n, k, first, th), 1) == Put(Helping(n, k, first, th), 1, th')
    ensures Leads(Build(n), Begin(n), all, Helping(n, k, first, th'))
  {
    hide RunStep, Build, Begin, Leads;
    all := Then(Build(n), Begin(n), actions, Helping(n, k, first, th), Run(1));
    RunSecond(n, k, first, 2, 2, false, MARK_ALL, th, th');
  }

  /** It finds the first entry of the mark stack taken. */
  lemma HelperEnters(n: nat, actions: seq<Action>) returns (all: seq<Action>, max: nat)
    requires Leads(Build(n), Begin(n), actions, Two(n, 1, 0, 1, 2, false, MARK_ALL, ENTERING))
    ensures Leads(Build(n), Begin(n), all, Helping(n, 1, 0, Thread(Steal(1, n + 1, 0, max), 0, []))) && max < 6
  {
    all := Then(Build(n), Begin(n), actions, Two(n, 1, 0, 1, 2, false, MARK_ALL, ENTERING), Run(1));
    RunSecond(n, 1, 0, 1, 2, false, MARK_ALL, ENTERING, Thread(LoopHead, 0, []));
    hide Build, Begin, Leads;
    all, max := HelperLooks(n, all);
  }

  lemma HelperLooks(n: nat, actions: seq<Action>) returns (all: seq<Action>, max: nat)
    requires Leads(Build(n), Begin(n), actions, Helping(n, 1, 0, Thread(LoopHead, 0, [])))
    ensures Leads(Build(n), Begin(n), all, Helping(n, 1, 0, Thread(Steal(1, n + 1, 0, max), 0, []))) && max < 6
  {
    hide Build, Begin, Leads;
    all := HelperThen(n, 1, 0, actions, Thread(LoopHead, 0, []), Thread(Compare(0), 0, []));
    all := HelperThen(n, 1, 0, all, Thread(Compare(0), 0, []), Thread(ReadTop, 0, []));
    max := StartSteal(0, n + 1).max;
    all := HelperThen(n, 1, 0, all, Thread(ReadTop, 0, []), Thread(Steal(0, n + 1, 0, max), 0, []));
    all := HelperThen(n, 1, 0, all, Thread(Steal(0, n + 1, 0, max), 0, []), Thread(Steal(1, n + 1, 0, max), 0, []));
  }

  /** From the loop head, with k entries taken. */
  lemma {:induction false} HelperGoesOn(n: nat, k: nat, first: nat, actions: seq<Action>) returns (all: seq<Action>)
    requires Leads(Build(n), Begin(n), actions, Helping(n, k, first, Thread(LoopHead, k, []))) && first <= k <= n + 1 && 0 < k
    ensures Leads(Build(n), Begin(n), all, Two(n, n + 1, n + 1, 1, 2, false, MARK_ALL, Wait(n)))
    decreases n + 1 - k
  {
    hide Build, Begin, Leads;
    all := HelperCompares(n, k, first, actions);
    if k == n + 1 {
      all := HelperBlocks(n, all);
    } else {
      var max := StartSteal(k, n + 1).max;
      all := HelperThen(n, k, k, all, Thread(ReadTop, k, []), Thread(Steal(k, n + 1, 0, max), k, []));
      all := HelperTakes(n, k, k, k, all, max);
      all := HelperGoesOn(n, k + 1, k, all);
    }
  }

  lemma HelperCompares(n: nat, k: nat, first: nat, actions: seq<Action>) returns (all: seq<Action>)
    requires Leads(Build(n), Begin(n), actions, Helping(n, k, first, Thread(LoopHead, k, []))) && first <= k <= n + 1
    ensures Leads(Build(n), Begin(n), all, Helping(n, k, k, Thread(ReadTop, k, [])))
  {
    var th := Thread(Compare(first), k, []);
    all := HelperThen(n, k, first, actions, Thread(LoopHead, k, []), th);
    hide Build, Begin, Leads;
    all := Then(Build(n), Begin(n), all, Helping(n, k, first, th), Run(1));
    RunSecond(n, k, first, 2, 2, false, MARK_ALL, th, Thread(ReadTop, k, []));
    assert RunStep(Build(n), Helping(n, k, first, th), 1) == Helping(n, k, k, Thread(ReadTop, k, []));
  }

  lemma HelperBlocks(n: nat, actions: seq<Action>) returns (all: seq<Action>)
    requires Leads(Build(n), Begin(n), actions, Helping(n, n + 1, n + 1, Thread(ReadTop, n + 1, [])))
    ensures Leads(Build(n), Begin(n), all, Two(n, n + 1, n + 1, 1, 2, false, MARK_ALL, Wait(n)))
  {
    hide Build, Begin, Leads;
    var th := Thread(LockedCheck, n + 1, []);
    all := HelperThen(n, n + 1, n + 1, actions, Thread(ReadTop, n + 1, []), th);
    all := Then(Build(n), Begin(n), all, Helping(n, n + 1, n + 1, th), Run(1));
    RunSecond(n, n + 1, n + 1, 1, 2, false, MARK_ALL, th, Wait(n));
  }

  /** It takes the next area, which counts as more than five entries, and scans it. */
  lemma HelperTakes(n: nat, k: nat, first: nat, my: nat, actions: seq<Action>, max: nat) returns (all: seq<Action>)
    requires Leads(Build(n), Begin(n), actions, Helping(n, k, first, Thread(Steal(k, n + 1, 0, max), my, []))) && max < 6 && 0 < k <= n
    ensures Leads(Build(n), Begin(n), all, Helping(n, k + 1, first, Thread(LoopHead, k + 1, [])))
  {
    TakeSlot(n, k);
    HelperTook(n, k, first, my, max);
    hide Build, Begin, Leads, Stack;
    var th := Thread(Take(k, n + 1, 0, max, Area(k)), my, []);
    all := HelperThen(n, k, first, actions, Thread(Steal(k, n + 1, 0, max), my, []), th);
    all := Then(Build(n), Begin(n), all, Helping(n, k, first, th), Run(1));
    all := HelperScans(n, k, first, my, all, max);
  }

  lemma HelperTook(n: nat, k: nat, first: nat, my: nat, max: nat)
    requires 0 < k <= n
    ensures RunStep(Build(n), Helping(n, k, first, Thread(Take(k, n + 1, 0, max, Area(k)), my, [])), 1)
            == Helping(n, k + 1, first, Thread(Steal(k + 1, n + 1, 6, max), my, [Area(k)]))
  {
    TakeSlot(n, k);
    assert Weight(Build(n), Area(k)) == 6 && [] + [Area(k)] == [Area(k)];
    RunSecond(n, k + 1, first, 2, 2, false, MARK_ALL, Thread(Take(k, n + 1, 0, max, Area(k)), my, []), Thread(Steal(k + 1, n + 1, 6, max), my, [Area(k)]));
  }

  lemma HelperScans(n: nat, k: nat, first: nat, my: nat, actions: seq<Action>, max: nat) returns (all: seq<Action>)
    requires Leads(Build(n), Begin(n), actions, Helping(n, k + 1, first, Thread(Steal(k + 1, n + 1, 6, max), my, [Area(k)])))
    requires max < 6 && 0 < k <= n
    ensures Leads(Build(n), Begin(n), all, Helping(n, k + 1, first, Thread(LoopHead, k + 1, [])))
  {
    hide Begin, Leads;
    var rest := [Entry(k, 127, 33)];
    all := HelperThen(n, k + 1, first, actions, Thread(Steal(k + 1, n + 1, 6, max), my, [Area(k)]), Thread(Mark(512), k + 1, [Area(k)]));
    assert [Area(k)][..0] + rest == rest;
    all := HelperThen(n, k + 1, first, all, Thread(Mark(512), k + 1, [Area(k)]), Thread(Scan(k, 0, 127, 385), k + 1, rest));
    all := HelperScan(n, k + 1, first, all, Thread(Scan(k, 0, 127, 385), k + 1, rest));
    assert rest[..0] == [];
    all := HelperThen(n, k + 1, first, all, Thread(Mark(385), k + 1, rest), Thread(Scan(k, 127, 160, 352), k + 1, []));
    all := HelperScan(n, k + 1, first, all, Thread(Scan(k, 127, 160, 352), k + 1, []));
    all := HelperThen(n, k + 1, first, all, Thread(Mark(352), k + 1, []), Thread(LoopHead, k + 1, []));
  }

  lemma HelperScan(n: nat, k: nat, first: nat, actions: seq<Action>, th: Thread) returns (all: seq<Action>)
    requires Leads(Build(n), Begin(n), actions, Helping(n, k, first, th)) && th.pc.Scan?
    ensures Leads(Build(n), Begin(n), all, Helping(n, k, first, th.(pc := Mark(th.pc.credit))))
  {
    assert Build(n).objects == {};
    hide Build, Begin, Leads;
    all := ScanThrough(Build(n), Begin(n), actions, Helping(n, k, first, th), 1);
    RunSecond(n, k, first, 2, 2, false, MARK_ALL, th, th.(pc := Mark(th.pc.credit)));
  }

  lemma HelperFindsNothing(actions: seq<Action>, max: nat) returns (all: seq<Action>)
    requires Leads(Build(0), Begin(0), actions, Helping(0, 1, 0, Thread(Steal(1, 1, 0, max), 0, [])))
    ensures Leads(Build(0), Begin(0), all, Helping(0, 1, 0, Thread(LoopHead, 1, [])))
  {
    hide Begin, Leads;
    all := HelperThen(0, 1, 0, actions, Thread(Steal(1, 1, 0, max), 0, []), Thread(Mark(512), 1, []));
    all := HelperThen(0, 1, 0, all, Thread(Mark(512), 1, []), Thread(LoopHead, 1, []));
  }

  lemma HelperWaits(n: nat, actions: seq<Action>) returns (all: seq<Action>)
    requires Leads(Build(n), Begin(n), actions, Two(n, 1, 0, 1, 2, false, MARK_ALL, ENTERING))
    ensures Leads(Build(n), Begin(n), all, Two(n, n + 1, n + 1, 1, 2, false, MARK_ALL, Wait(n)))
  {
    hide Build, Begin, Leads;
    var max;
    all, max := HelperEnters(n, actions);
    if n == 0 {
      all := HelperFindsNothing(all, max);
      all := HelperGoesOn(n, 1, 0, all);
    } else {
      all := HelperTakes(n, 1, 0, 0, all, max);
      all := HelperGoesOn(n, 2, 0, all);
    }
  }

  // ---------- one thread alone ----------

  /** The state while the initiator works and the helper waits. */
  function Solo(n: nat, th: Thread, invalid: bool): State { Two(n, n + 1, n + 1, 1, 2, invalid, th, Wait(n)) }

  /** A step of the initiator that only changes its own variables. */
  lemma SoloThen(n: nat, s: State, actions: seq<Action>, th: Thread, invalid: bool, th': Thread) returns (all: seq<Action>)
    requires Leads(Build(n), s, actions, Solo(n, th, invalid)) && th.pc != Outside
    requires RunStep(Build(n), Solo(n, th, invalid), 0) == Put(Solo(n, th, invalid), 0, th')
    ensures Leads(Build(n), s, all, Solo(n, th', invalid))
  {
    hide RunStep;
    all := Then(Build(n), s, actions, Solo(n, th, invalid), Run(0));
    RunFirst(n, n + 1, n + 1, 1, 2, invalid, th, th', Wait(n));
  }

  lemma SoloScan(n: nat, s: State, actions: seq<Action>, th: Thread, invalid: bool) returns (all: seq<Action>)
    requires Leads(Build(n), s, actions, Solo(n, th, invalid)) && th.pc.Scan?
    ensures Leads(Build(n), s, all, Solo(n, th.(pc := Mark(th.pc.credit)), invalid))
  {
    assert Build(n).objects == {};
    hide Build, Leads;
    all := ScanThrough(Build(n), s, actions, Solo(n, th, invalid), 0);
    RunFirst(n, n + 1, n + 1, 1, 2, invalid, th, th.(pc := Mark(th.pc.credit)), Wait(n));
  }

  /** GC_mark_from deals with its top entry: it is split, or a piece of it is scanned. */
  function Dealt(th: Thread): Thread
    requires th.pc.Mark? && th.local != []
  {
    var th' := NextEntry(Build(0), th);
    if th'.pc.Scan? then th'.(pc := Mark(th'.pc.credit)) else th'
  }

  lemma DealStep(n: nat, th: Thread, invalid: bool)
    requires th.pc.Mark? && th.local != [] && 0 <= th.pc.credit
    ensures RunStep(Build(n), Solo(n, th, invalid), 0) == Put(Solo(n, th, invalid), 0, NextEntry(Build(0), th))
  {
    hide Put;
    assert NextEntry(Build(n), th) == NextEntry(Build(0), th);
    assert Solo(n, th, invalid).threads[0] == th;
  }

  lemma Deal(n: nat, s: State, actions: seq<Action>, th: Thread, invalid: bool) returns (all: seq<Action>)
    requires Leads(Build(n), s, actions, Solo(n, th, invalid)) && th.pc.Mark? && th.local != [] && 0 <= th.pc.credit
    ensures Leads(Build(n), s, all, Solo(n, Dealt(th), invalid))
  {
    hide Leads, RunStep, Put, Solo;
    var th' := NextEntry(Build(0), th);
    DealStep(n, th, invalid);
    all := SoloThen(n, s, actions, th, invalid, th');
    assert th'.pc.Scan? || th'.pc.Mark?;
    hide NextEntry, Build;
    if th'.pc.Scan? { all := SoloScan(n, s, all, th', invalid); }
  }

  function At(local: seq<Entry>, credit: int): Thread { Thread(Mark(credit), 1, local) }

  function Part(lo: nat, size: nat): Entry { Entry(0, lo, size) }

  /** As long as there is credit, GC_mark_from deals with k entries. */
  function DealtTimes(th: Thread, k: nat): Thread
    decreases k
  {
    if k == 0 || !th.pc.Mark? || th.local == [] || th.pc.credit < 0 then th else DealtTimes(Dealt(th), k - 1)
  }

  lemma {:induction false} DealMany(n: nat, s: State, actions: seq<Action>, th: Thread, k: nat) returns (all: seq<Action>)
    requires Leads(Build(n), s, actions, Solo(n, th, false))
    ensures Leads(Build(n), s, all, Solo(n, DealtTimes(th, k), false))
    decreases k
  {
    hide Dealt, Leads, Build, Solo;
    if k == 0 || !th.pc.Mark? || th.local == [] || th.pc.credit < 0 {
      all := actions;
    } else {
      all := Deal(n, s, actions, th, false);
      all := DealMany(n, s, all, Dealt(th), k - 1);
    }
  }

  /** Dealing with a long range splits it. */
  lemma DealSplit(rest: seq<Entry>, lo: nat, size: nat, credit: nat, k: nat)
    requires 256 < size && |rest| < 16
    ensures DealtTimes(At(rest + [Part(lo, size)], credit), k + 1)
            == DealtTimes(At(rest + [Part(lo, size / 2 + 1)] + [Part(lo + size / 2, size - size / 2)], credit), k)
  {
    var th := At(rest + [Part(lo, size)], credit);
    assert th.local[..|th.local| - 1] == rest;
    assert Dealt(th).local == rest + [Part(lo, size / 2 + 1)] + [Part(lo + size / 2, size - size / 2)];
  }

  /** Of a range that is not shared, a piece is scanned, or the rest. */
  lemma DealScan(rest: seq<Entry>, lo: nat, size: nat, credit: nat, k: nat)
    requires size <= 256
    ensures DealtTimes(At(rest + [Part(lo, size)], credit), k + 1)
            == DealtTimes(if 128 <= size then At(rest + [Part(lo + 127, size - 127)], credit - 127) else At(rest, credit - size), k)
  {
    var th := At(rest + [Part(lo, size)], credit);
    assert th.local[..|th.local| - 1] == rest;
  }

  const LEFT: seq<Entry> := [Part(0, 2049)] + [Part(2048, 1025)] + [Part(3072, 513)]

  /** The first splits leave the upper end of the range in two parts. */
  lemma SplitRange()
    ensures DealtTimes(MARK_ALL, 12) == DealtTimes(At(LEFT + [Part(3584, 257)] + [Part(3840, 256)], 512), 8)
  {
    hide DealtTimes;
    assert MARK_ALL == At([] + [Part(0, 4096)], 512) by { assert [RANGE] == [] + [Part(0, 4096)]; }
    assert [] + [Part(0, 2049)] == [Part(0, 2049)];
    hide MARK_ALL, At, Part;
    DealSplit([], 0, 4096, 512, 11);
    DealSplit([Part(0, 2049)], 2048, 2048, 512, 10);
    DealSplit([Part(0, 2049)] + [Part(2048, 1025)], 3072, 1024, 512, 9);
    DealSplit(LEFT, 3584, 512, 512, 8);
  }

  lemma ScanLastPart()
    ensures DealtTimes(At(LEFT + [Part(3584, 257)] + [Part(3840, 256)], 512), 8) == DealtTimes(At(LEFT + [Part(3584, 257)], 256), 5)
  {
    hide DealtTimes, LEFT, At, Part;
    DealScan(LEFT + [Part(3584, 257)], 3840, 256, 512, 7);
    DealScan(LEFT + [Part(3584, 257)], 3967, 129, 385, 6);
    DealScan(LEFT + [Part(3584, 257)], 4094, 2, 258, 5);
  }

  lemma LeftLength()
    ensures |LEFT| == 3
  {
  }

  lemma SplitPartBefore()
    ensures DealtTimes(At(LEFT + [Part(3584, 257)], 256), 5) == DealtTimes(At(LEFT + [Part(3584, 129)] + [Part(3712, 129)], 256), 4)
  {
    hide DealtTimes, LEFT, At, Part;
    LeftLength();
    DealSplit(LEFT, 3584, 257, 256, 4);
  }

  lemma ScanPartBefore()
    ensures DealtTimes(At(LEFT + [Part(3584, 129)] + [Part(3712, 129)], 256), 4) == DealtTimes(At(LEFT + [Part(3584, 129)], 127), 2)
  {
    hide DealtTimes, LEFT, At, Part;
    DealScan(LEFT + [Part(3584, 129)], 3712, 129, 256, 3);
    DealScan(LEFT + [Part(3584, 129)], 3839, 2, 129, 2);
  }

  lemma ScanPartLast()
    ensures DealtTimes(At(LEFT + [Part(3584, 129)], 127), 2) == At(LEFT, -2)
  {
    assert DealtTimes(At(LEFT, -2), 0) == At(LEFT, -2);
    hide DealtTimes, LEFT, At, Part;
    DealScan(LEFT, 3584, 129, 127, 1);
    DealScan(LEFT, 3711, 2, 0, 0);
  }

  /** GC_mark_from uses up its credit at the upper end of the range. */
  lemma MarkUpperEnd(n: nat, s: State, actions: seq<Action>) returns (all: seq<Action>)
    requires Leads(Build(n), s, actions, Solo(n, MARK_ALL, false))
    ensures Leads(Build(n), s, all, Solo(n, At(LEFT, -2), false))
  {
    hide Leads, Build, Solo, DealtTimes, LEFT, MARK_ALL;
    SplitRange();
    ScanLastPart();
    SplitPartBefore();
    ScanPartBefore();
    ScanPartLast();
    all := DealMany(n, s, actions, MARK_ALL, 12);
  }

  /** The loads and tests before entries are shared: the helper waits, and the mark stack is empty. */
  lemma Offers(n: nat, s: State, actions: seq<Action>, th: Thread, invalid: bool) returns (all: seq<Action>)
    requires Leads(Build(n), s, actions, Solo(n, th, invalid)) && th.pc == ShareTop
    ensures Leads(Build(n), s, all, Solo(n, th.(pc := ShareHelpers(1)), invalid))
  {
    TestsPass(n, th, invalid);
    hide RunStep, Build, Leads, Solo;
    all := SoloThen(n, s, actions, th, invalid, th.(pc := ShareFirst(n + 1)));
    all := SoloThen(n, s, all, th.(pc := ShareFirst(n + 1)), invalid, th.(pc := ShareActive));
    all := SoloThen(n, s, all, th.(pc := ShareActive), invalid, th.(pc := ShareHelpers(1)));
  }

  lemma TestsPass(n: nat, th: Thread, invalid: bool)
    requires th.pc == ShareTop
    ensures RunStep(Build(n), Solo(n, th, invalid), 0) == Put(Solo(n, th, invalid), 0, th.(pc := ShareFirst(n + 1)))
    ensures var t := th.(pc := ShareFirst(n + 1)); RunStep(Build(n), Solo(n, t, invalid), 0) == Put(Solo(n, t, invalid), 0, th.(pc := ShareActive))
    ensures var t := th.(pc := ShareActive); RunStep(Build(n), Solo(n, t, invalid), 0) == Put(Solo(n, t, invalid), 0, th.(pc := ShareHelpers(1)))
  {
  }

  /** It has three entries left, offers the lowest to the waiting helper, and finds no room for it on the mark stack. */
  lemma NoRoomToShare(n: nat, s: State, actions: seq<Action>) returns (all: seq<Action>)
    requires Leads(Build(n), s, actions, Solo(n, At(LEFT, -2), false))
    ensures Leads(Build(n), s, all, Solo(n, At(LEFT[1..], 512), true))
  {
    var th := At(LEFT, -2);
    all := SoloThen(n, s, actions, th, false, th.(pc := ShareTop));
    hide RunStep, Leads, Solo, LEFT;
    all := Offers(n, s, all, th.(pc := ShareTop), false);
    all := OfferLowest(n, s, all);
  }

  lemma OfferLowest(n: nat, s: State, actions: seq<Action>) returns (all: seq<Action>)
    requires Leads(Build(n), s, actions, Solo(n, At(LEFT, -2).(pc := ShareHelpers(1)), false))
    ensures Leads(Build(n), s, all, Solo(n, At(LEFT[1..], 512), true))
  {
    var th := At(LEFT, -2);
    all := SoloThen(n, s, actions, th.(pc := ShareHelpers(1)), false, th.(pc := Share));
    all := NothingShared(n, s, all);
  }

  lemma NothingShared(n: nat, s: State, actions: seq<Action>) returns (all: seq<Action>)
    requires Leads(Build(n), s, actions, Solo(n, At(LEFT, -2).(pc := Share), false))
    ensures Leads(Build(n), s, all, Solo(n, At(LEFT[1..], 512), true))
  {
    NoneShared(n);
    hide Leads, RunStep, Build, LEFT;
    all := Then(Build(n), s, actions, Solo(n, At(LEFT, -2).(pc := Share), false), Run(0));
  }

  lemma NoneShared(n: nat)
    ensures RunStep(Build(n), Solo(n, At(LEFT, -2).(pc := Share), false), 0) == Solo(n, At(LEFT[1..], 512), true)
  {
    var th, th' := At(LEFT, -2).(pc := Share), At(LEFT[1..], 512);
    RunFirst(n, n + 1, n + 1, 1, 2, false, th, th', Wait(n));
    assert ToShare(th) == 1 && LEFT[0..1] == LEFT[..1];
    assert RunStep(Build(n), Solo(n, th, false), 0) == Put(Solo(n, th, false), 0, th').(invalid := true);
  }

  // ---------- the end of the run ----------

  /** Bounds how often a range is still split or cut. */
  function Rounds(size: nat): nat { if size < 3 then size + 1 else 2 * size - 3 }

  function AllRounds(es: seq<Entry>): nat {
    if es == [] then 0 else AllRounds(es[..|es| - 1]) + Rounds(es[|es| - 1].size)
  }

  lemma {:induction false} RoundsConcat(es: seq<Entry>, fs: seq<Entry>)
    ensures AllRounds(es + fs) == AllRounds(es) + AllRounds(fs)
    decreases |fs|
  {
    if fs == [] {
      assert es + fs == es;
    } else {
      assert (es + fs)[..|es + fs| - 1] == es + fs[..|fs| - 1];
      RoundsConcat(es, fs[..|fs| - 1]);
    }
  }

  lemma DealtRounds(th: Thread)
    requires th.pc.Mark? && th.local != []
    ensures AllRounds(Dealt(th).local) < AllRounds(th.local)
  {
    var rest, e := th.local[..|th.local| - 1], th.local[|th.local| - 1];
    var th' := Dealt(th);
    if |th'.local| == |rest| + 2 {
      assert th'.local[..|rest| + 1][..|rest|] == rest;
      assert th'.local[|rest|] == Lower(e) && th'.local[|rest| + 1] == Upper(e);
    } else if |th'.local| == |rest| + 1 {
      assert th'.local[..|rest|] == rest;
    }
  }

  /** With no room on the mark stack, the thread alone scans or drops all that it has. */
  lemma {:induction false} FinishLocal(n: nat, s: State, actions: seq<Action>, th: Thread) returns (all: seq<Action>)
    requires Leads(Build(n), s, actions, Solo(n, th, true)) && th.pc.Mark? && th.myFirst == 1
    ensures Leads(Build(n), s, all, Solo(n, Thread(LoopHead, 1, []), true))
    decreases AllRounds(th.local), th.pc.credit < 0
  {
    if th.local == [] {
      all := SoloThen(n, s, actions, th, true, th.(pc := LoopHead));
    } else if 0 <= th.pc.credit {
      DealtRounds(th);
      all := Deal(n, s, actions, th, true);
      all := FinishLocal(n, s, all, Dealt(th));
    } else if 2048 <= |th.local| - 1 {
      all := GiveBack(n, s, actions, th);
    } else {
      var kept;
      all, kept := ShareRefused(n, s, actions, th);
      all := FinishLocal(n, s, all, th.(pc := Mark(512), local := kept));
    }
  }

  lemma GiveBack(n: nat, s: State, actions: seq<Action>, th: Thread) returns (all: seq<Action>)
    requires Leads(Build(n), s, actions, Solo(n, th, true)) && th.pc.Mark? && th.myFirst == 1 && th.pc.credit < 0 && 2048 <= |th.local| - 1
    ensures Leads(Build(n), s, all, Solo(n, Thread(LoopHead, 1, []), true))
  {
    all := Then(Build(n), s, actions, Solo(n, th, true), Run(0));
    RunFirst(n, n + 1, n + 1, 1, 2, true, th, Thread(LoopHead, 1, []), Wait(n));
  }

  /** The thread goes through the tests for sharing, and may lose the entries that it offers. */
  lemma ShareRefused(n: nat, s: State, actions: seq<Action>, th: Thread) returns (all: seq<Action>, kept: seq<Entry>)
    requires Leads(Build(n), s, actions, Solo(n, th, true)) && th.pc.Mark? && th.pc.credit < 0 && th.local != [] && |th.local| - 1 < 2048
    ensures Leads(Build(n), s, all, Solo(n, th.(pc := Mark(512), local := kept), true)) && AllRounds(kept) <= AllRounds(th.local)
  {
    all := SoloThen(n, s, actions, th, true, th.(pc := ShareTop));
    hide RunStep, Leads, Solo;
    all := Offers(n, s, all, th.(pc := ShareTop), true);
    all, kept := OfferRefused(n, s, all, th.(pc := ShareHelpers(1)));
  }

  lemma OfferRefused(n: nat, s: State, actions: seq<Action>, th: Thread) returns (all: seq<Action>, kept: seq<Entry>)
    requires Leads(Build(n), s, actions, Solo(n, th, true)) && th.pc == ShareHelpers(1) && th.local != []
    ensures Leads(Build(n), s, all, Solo(n, th.(pc := Mark(512), local := kept), true)) && AllRounds(kept) <= AllRounds(th.local)
  {
    if |th.local| < 3 {
      kept := th.local;
      all := SoloThen(n, s, actions, th, true, th.(pc := Mark(512)));
    } else {
      all := SoloThen(n, s, actions, th, true, th.(pc := Share));
      all, kept := Refuse(n, s, all, th.(pc := Share));
    }
  }

  lemma Refuse(n: nat, s: State, actions: seq<Action>, th: Thread) returns (all: seq<Action>, kept: seq<Entry>)
    requires Leads(Build(n), s, actions, Solo(n, th, true)) && th.pc == Share && 3 <= |th.local|
    ensures Leads(Build(n), s, all, Solo(n, th.(pc := Mark(512), local := kept), true)) && AllRounds(kept) <= AllRounds(th.local)
  {
    var k := ToShare(th);
    kept := th.local[k..];
    var th' := th.(pc := Mark(512), local := kept);
    all := Then(Build(n), s, actions, Solo(n, th, true), Run(0));
    RunFirst(n, n + 1, n + 1, 1, 2, true, th, th', Wait(n));
    assert RunStep(Build(n), Solo(n, th, true), 0) == Put(Solo(n, th, true), 0, th');
    assert th.local[..k] + kept == th.local;
    RoundsConcat(th.local[..k], kept);
  }

  /** A thread that has left. */
  function Gone(n: nat): Thread { Thread(Outside, n + 1, []) }

  ghost predicate Lost(s: State) { s.progress == Returned && s.invalid && s.marked == {} }

  /** The initiator finds the mark stack empty and nobody active, and leaves; so does the helper. */
  lemma BothLeave(n: nat, s: State, actions: seq<Action>) returns (all: seq<Action>, last: State)
    requires Leads(Build(n), s, actions, Solo(n, Thread(LoopHead, 1, []), true))
    ensures Leads(Build(n), s, all, last) && Lost(last)
  {
    hide Build, Leads;
    all := SoloThen(n, s, actions, Thread(LoopHead, 1, []), true, Thread(Compare(n + 1), 1, []));
    all := SoloThen(n, s, all, Thread(Compare(n + 1), 1, []), true, Thread(ReadTop, n + 1, []));
    all := SoloThen(n, s, all, Thread(ReadTop, n + 1, []), true, Thread(LockedCheck, n + 1, []));
    all, last := InitiatorLeaves(n, s, all);
  }

  lemma InitiatorLeaves(n: nat, s: State, actions: seq<Action>) returns (all: seq<Action>, last: State)
    requires Leads(Build(n), s, actions, Solo(n, Thread(LockedCheck, n + 1, []), true))
    ensures Leads(Build(n), s, all, last) && Lost(last)
  {
    assert Build(n).initiator == 0;
    hide Build, Leads;
    all := Then(Build(n), s, actions, Solo(n, Thread(LockedCheck, n + 1, []), true), Run(0));
    RunFirst(n, n + 1, n + 1, 1, 2, true, Thread(LockedCheck, n + 1, []), Gone(n), Wait(n));
    all, last := HelperLeaves(n, s, all);
  }

  lemma HelperLeaves(n: nat, s: State, actions: seq<Action>) returns (all: seq<Action>, last: State)
    requires Leads(Build(n), s, actions, Two(n, n + 1, n + 1, 0, 1, true, Gone(n), Wait(n)).(progress := Left))
    ensures Leads(Build(n), s, all, last) && Lost(last)
  {
    hide Build, Leads;
    var s1 := Two(n, n + 1, n + 1, 0, 1, true, Gone(n), Wait(n)).(progress := Left);
    all := Then(Build(n), s, actions, s1, StopHelp);
    all, last := LastToLeave(n, s, all, s1.(progress := Draining, helpWanted := false));
  }

  lemma LastToLeave(n: nat, s: State, actions: seq<Action>, s1: State) returns (all: seq<Action>, last: State)
    requires s1 == Two(n, n + 1, n + 1, 0, 1, true, Gone(n), Wait(n)).(progress := Draining, helpWanted := false) && Leads(Build(n), s, actions, s1)
    ensures Leads(Build(n), s, all, last) && Lost(last)
  {
    assert Build(n).initiator == 0;
    hide Build, Leads;
    all := Then(Build(n), s, actions, s1, Run(1));
    RunSecond(n, n + 1, n + 1, 0, 1, true, Gone(n), Wait(n), Gone(n));
    var s2 := Two(n, n + 1, n + 1, 0, 0, true, Gone(n), Gone(n)).(progress := Draining, helpWanted := false);
    all := Then(Build(n), s, all, s2, Finish);
    last := Apply(Build(n), s2, Finish);
  }

  lemma BuildSized(n: nat)
    ensures Pr.Sized(Build(n))
  {
    B.DepthSmall(256);
  }

  /** The mark stack is full, and there are two threads. */
  ghost predicate IsFull(c: Config, s: State) {
    Pr.Ranges(s.stack) && |s.stack| == c.capacity && (forall i :: 0 <= i < |s.stack| ==> s.stack[i].Full?) && |s.threads| == 2
  }

  lemma BeginInitial(n: nat)
    ensures Initial(Build(n), Begin(n)) && IsFull(Build(n), Begin(n))
  {
    var s := Begin(n);
    assert s.threads.Keys == {0, 1};
    assert |s.threads| == |s.threads.Keys|;
    forall i: nat | i <= n ensures s.stack[i] == Full(Area(i)) && IsWhole(Build(n), Area(i)) {
    }
    forall m | m in s.pushed ensures exists i :: 0 <= i < |s.stack| && s.stack[i].Full? && s.stack[i].e.n == m {
      assert s.stack[m].e.n == m;
    }
  }

  lemma WholeRun(n: nat) returns (actions: seq<Action>, last: State)
    ensures Leads(Build(n), Begin(n), actions, last) && Lost(last)
  {
    hide Build, Begin, MARK_ALL, RANGE, Wait, ENTERING, Leads, Two;
    actions := InitiatorTakes(n);
    actions := HelperWaits(n, actions);
    assert Two(n, n + 1, n + 1, 1, 2, false, MARK_ALL, Wait(n)) == Solo(n, MARK_ALL, false);
    actions := MarkUpperEnd(n, Begin(n), actions);
    actions := NoRoomToShare(n, Begin(n), actions);
    actions := FinishLocal(n, Begin(n), actions, At(LEFT[1..], 512));
    actions, last := BothLeave(n, Begin(n), actions);
  }

  /** For every capacity, a run in which parallel marking returns with an invalid state and has marked nothing. */
  lemma FruitlessRun(n: nat) returns (c: Config, states: seq<State>, actions: seq<Action>)
    ensures c.capacity == n + 1 && Pr.Sized(c) && IsRun(c, states, actions) && IsFull(c, states[0])
    ensures var s := states[|actions|]; s.progress == Returned && s.invalid && s.marked == c.before
  {
    var last;
    c := Build(n);
    actions, last := WholeRun(n);
    BuildSized(n);
    BeginInitial(n);
    assert c.capacity == n + 1 && c.before == {};
    hide Leads, Build, Begin, Pr.Sized, IsFull;
    states := StatesOf(c, Begin(n), actions, last);
  }
}
