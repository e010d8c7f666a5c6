/**
The thread-specific table whose readers take no lock (libs/gc/specific.c, with the fast path of
libs/gc/include/private/specific.h): threads in any interleaving of their loads and stores, which are
taken to be sequentially consistent.  Threads and entries are named by positive numbers; 0 is the
null pointer, the free lock and INVALID_QTID.  A thread may set, get and remove in any order and again
and again, as long as it does not set twice in a row; quick thread ids are pages of its stack, which it
reaches and, when it has ended without a value, leaves to others.  A thread that has ended without a
value is as one that has not begun, so thread ids are used again too.
 */
module Specific {

  type Thread = nat
  type Ent = nat

  /** Where remove_specific found the pointer to an entry. */
  datatype Link = HeadLink | EntryLink(x: Ent)

  /** What a thread does next. */
  datatype Pc =
    | Idle                       // between calls
    | SetLock(e: Ent)            // the new entry is allocated
    | SetFill(e: Ent)            // the lock is held
    | SetPublish(e: Ent)         // the entry is filled in
    | SetUnlock
    | GetQtid(q: nat, slot: nat, c: Ent)  // fast path: c was loaded from the cache
    | GetHead(q: nat, slot: nat)          // slow path
    | GetWalk(q: nat, slot: nat, e: Ent, since: nat)  // standing at e; the walk began at time since
    | GetStore(q: nat, slot: nat, e: Ent) // found e; about to set its qtid
    | GetCache(q: nat, slot: nat, e: Ent) // about to store e in the cache
    | Got(found: bool, v: nat)   // the call returns v, or NULL
    | RemLock
    | RemWalk(link: Link, e: Ent)
    | RemUnlink(link: Link, e: Ent)
    | RemUnlock
    | Crashed                    // used a null entry

  /** The table and the quick thread ids in use; what follows them records the history of the table. */
  datatype Mem = Mem(
    bucket: Thread -> nat,        // HASH
    head: map<nat, Ent>,          // the hash table
    next: map<Ent, Ent>,
    owner: map<Ent, Thread>,      // the thread field
    value: map<Ent, nat>,
    qtid: map<Ent, nat>,
    quick: map<Thread, set<nat>>, // the quick thread ids of each thread
    unused: nat,                  // the next entry to be allocated
    maker: map<Ent, Thread>,      // who allocated an entry
    given: map<Thread, nat>,      // the value each thread called setspecific with last
    mine: map<Thread, Ent>,       // the entry in the table of each thread that has one
    rank: map<Ent, nat>,          // when an entry was linked
    live: set<Ent>,               // linked and not unlinked
    died: map<Ent, nat>,          // when an entry was unlinked
    last: map<Thread, nat>,       // when a thread last unlinked an entry
    clock: nat)

  datatype State = State(m: Mem, cache: map<nat, Ent>, lock: Thread, pc: map<Thread, Pc>)

  function Get(m: map<nat, nat>, k: nat): nat { if k in m then m[k] else 0 }

  function PcOf(s: State, t: Thread): Pc { if t in s.pc then s.pc[t] else Idle }

  function Goto(s: State, t: Thread, p: Pc): State { s.(pc := s.pc[t := p]) }

  /** The bucket of an entry. */
  function BucketOf(m: Mem, e: Ent): nat { m.bucket(Get(m.owner, e)) }

  function Load(m: Mem, t: Thread, link: Link): Ent {
    match link
    case HeadLink => Get(m.head, m.bucket(t))
    case EntryLink(x) => Get(m.next, x)
  }

  function Store(m: Mem, t: Thread, link: Link, e: Ent): Mem {
    match link
    case HeadLink => m.(head := m.head[m.bucket(t) := e])
    case EntryLink(x) => m.(next := m.next[x := e])
  }

  /** What a thread between calls decides to do: a call, or to reach or give up stack pages. */
  datatype Choice = ToSet(v: nat) | ToGet(q: nat, slot: nat) | ToRemove | ToTake(q: nat) | ToRelease

  predicate Quick(m: Mem, t: Thread, q: nat) { t in m.quick && q in m.quick[t] }

  /** A thread between calls may do what it has chosen. */
  predicate MayChoose(m: Mem, t: Thread, c: Choice) {
    match c
    case ToSet(v) => t !in m.mine
    case ToGet(q, slot) => Quick(m, t, q)
    case ToRemove => true
    case ToTake(q) => q != 0 && forall u :: u in m.quick ==> q !in m.quick[u]
    case ToRelease => t !in m.mine
  }

  /** Thread t may take its next step. */
  predicate Enabled(s: State, t: Thread, c: Choice) {
    0 < t
    && match PcOf(s, t)
       case Idle => MayChoose(s.m, t, c)
       case SetLock(_) => s.lock == 0
       case RemLock => s.lock == 0
       case Crashed => false
       case _ => true
  }

  // The steps that change the table.

  function Allocate(m: Mem, t: Thread, v: nat): Mem {
    m.(unused := m.unused + 1, value := m.value[m.unused := v], maker := m.maker[m.unused := t],
      given := m.given[t := v])
  }

  function Fill(m: Mem, t: Thread, e: Ent): Mem {
    m.(next := m.next[e := Get(m.head, m.bucket(t))], owner := m.owner[e := t], qtid := m.qtid[e := 0])
  }

  function Publish(m: Mem, t: Thread, e: Ent): Mem {
    m.(head := m.head[m.bucket(t) := e], mine := m.mine[t := e], live := m.live + {e}, rank := m.rank[e := m.clock], clock := m.clock + 1)
  }

  function SetQtid(m: Mem, e: Ent, q: nat): Mem { m.(qtid := m.qtid[e := q]) }

  function Unlink(m: Mem, t: Thread, link: Link, e: Ent): Mem {
    Store(m, t, link, Get(m.next, e))
    .(live := m.live - {e}, mine := m.mine - {t}, died := m.died[e := m.clock], last := m.last[t := m.clock], clock := m.clock + 1)
  }

  function TakeQuick(m: Mem, t: Thread, q: nat): (w: Mem)
    ensures forall p :: Quick(w, t, p) <==> p == q || Quick(m, t, p)
  {
    m.(quick := m.quick[t := (if t in m.quick then m.quick[t] else {}) + {q}])
  }

  function ReleaseQuick(m: Mem, t: Thread): (w: Mem)
    ensures forall p :: !Quick(w, t, p)
  {
    m.(quick := m.quick - {t})
  }

  /** What a thread between calls does. */
  function Chosen(s: State, t: Thread, c: Choice): State {
    match c
    case ToSet(v) => Goto(s.(m := Allocate(s.m, t, v)), t, SetLock(s.m.unused))
    case ToGet(q, slot) => Goto(s, t, GetQtid(q, slot, Get(s.cache, slot)))
    case ToRemove => Goto(s, t, RemLock)
    case ToTake(q) => Goto(s.(m := TakeQuick(s.m, t, q)), t, Idle)
    case ToRelease => Goto(s.(m := ReleaseQuick(s.m, t)), t, Idle)
  }

  /** The next step of thread t. */
  function Next(s: State, t: Thread, c: Choice): State
    requires Enabled(s, t, c)
  {
    match PcOf(s, t)
    case Idle => Chosen(s, t, c)
    case SetLock(e) => Goto(s.(lock := t), t, SetFill(e))
    case SetFill(e) => Goto(s.(m := Fill(s.m, t, e)), t, SetPublish(e))
    case SetPublish(e) => Goto(s.(m := Publish(s.m, t, e)), t, SetUnlock)
    case SetUnlock => Goto(s.(lock := 0), t, Idle)
    case GetQtid(q, slot, e) => Goto(s, t, if Get(s.m.qtid, e) == q then Got(true, Get(s.m.value, e)) else GetHead(q, slot))
    case GetHead(q, slot) => Goto(s, t, GetWalk(q, slot, Get(s.m.head, s.m.bucket(t)), s.m.clock))
    case GetWalk(q, slot, e, since) =>
      Goto(s, t, if e == 0 then Got(false, 0)
                 else if Get(s.m.owner, e) == t then GetStore(q, slot, e) else GetWalk(q, slot, Get(s.m.next, e), since))
    case GetStore(q, slot, e) => Goto(s.(m := SetQtid(s.m, e, q)), t, GetCache(q, slot, e))
    case GetCache(q, slot, e) => Goto(s.(cache := s.cache[slot := e]), t, Got(true, Get(s.m.value, e)))
    case Got(_, _) => Goto(s, t, Idle)
    case RemLock => Goto(s.(lock := t), t, RemWalk(HeadLink, Get(s.m.head, s.m.bucket(t))))
    case RemWalk(link, e) =>
      if e == 0 then Goto(s, t, Crashed)
      else if Get(s.m.owner, e) == t then Goto(s.(m := SetQtid(s.m, e, 0)), t, RemUnlink(link, e))
      else Goto(s, t, RemWalk(EntryLink(e), Get(s.m.next, e)))
    case RemUnlink(link, e) => Goto(s.(m := Unlink(s.m, t, link, e)), t, RemUnlock)
    case RemUnlock => Goto(s.(lock := 0), t, Idle)
  }

  // ---------- the invariant ----------

  predicate Linked(m: Mem, e: Ent) { e in m.rank }

  /** The entry behind e, if there is one, was linked before e, in the same bucket. */
  predicate NextOk(m: Mem, e: Ent) {
    Linked(m, e) ==> var n := Get(m.next, e); n != 0 ==> Linked(m, n) && m.rank[n] < m.rank[e] && BucketOf(m, n) == BucketOf(m, e)
  }

  /** The entry behind e is live, or both were unlinked, e first. */
  predicate DiesOk(m: Mem, e: Ent) {
    Linked(m, e) ==> var n := Get(m.next, e); n != 0 ==> n in m.live || (e !in m.live && Get(m.died, e) < Get(m.died, n))
  }

  /** From e, unlinked or not, the walk cannot miss the live entry y if that was linked before e. */
  predicate Leads(m: Mem, e: Ent, y: Ent) {
    Linked(m, e) && y in m.live && Linked(m, y) && BucketOf(m, e) == BucketOf(m, y) && m.rank[y] < m.rank[e] ==>
      var n := Get(m.next, e); n != 0 && Linked(m, n) && m.rank[y] <= m.rank[n]
  }

  /** From the head of its bucket the walk cannot miss y. */
  predicate HeadLeads(m: Mem, y: Ent) {
    y in m.live && Linked(m, y) ==> var h := Get(m.head, BucketOf(m, y)); h != 0 && Linked(m, h) && m.rank[y] <= m.rank[h]
  }

  predicate HeadOk(m: Mem, b: nat) {
    var h := Get(m.head, b); h != 0 ==> Linked(m, h) && BucketOf(m, h) == b && h in m.live
  }

  /** A live entry is the one entry of its owner and holds its value; others were unlinked by their owners. */
  predicate EntryOk(m: Mem, e: Ent) {
    && (Linked(m, e) ==> 0 < e < m.unused && m.rank[e] < m.clock)
    && (Linked(m, e) && e !in m.live ==> Get(m.died, e) < m.clock && Get(m.died, e) <= Get(m.last, Get(m.owner, e)))
    && (e in m.live ==> Linked(m, e) && Get(m.owner, e) in m.mine && m.mine[Get(m.owner, e)] == e)
    && (e in m.live ==> Get(m.value, e) == Get(m.given, Get(m.owner, e)))
    && (e in m.owner ==> e < m.unused && 0 < m.owner[e]) && (e in m.qtid ==> e < m.unused)
  }

  predicate RanksDiffer(m: Mem, e: Ent, f: Ent) {
    Linked(m, e) && Linked(m, f) && m.rank[e] == m.rank[f] ==> e == f
  }

  /** A quick thread id in an entry is one of its owner, who still has the entry in the table. */
  predicate QtidOk(m: Mem, e: Ent) {
    Get(m.qtid, e) != 0 ==> e in m.live && Quick(m, Get(m.owner, e), m.qtid[e])
  }

  predicate QuickApart(m: Mem, t: Thread, u: Thread) {
    t in m.quick && u in m.quick ==> 0 !in m.quick[t] && (t != u ==> m.quick[t] !! m.quick[u])
  }

  predicate Owns(m: Mem, t: Thread) {
    t in m.mine && m.mine[t] in m.live && Linked(m, m.mine[t]) && Get(m.owner, m.mine[t]) == t && m.mine[t] != 0
  }

  predicate MineOk(m: Mem, t: Thread) { (t in m.mine ==> Owns(m, t)) && Get(m.last, t) < m.clock }

  ghost predicate MemOk(m: Mem) {
    && 0 < m.unused
    && (forall e {:trigger NextOk(m, e)} :: NextOk(m, e))
    && (forall e {:trigger DiesOk(m, e)} :: DiesOk(m, e))
    && (forall e, y {:trigger Leads(m, e, y)} :: Leads(m, e, y))
    && (forall y {:trigger HeadLeads(m, y)} :: HeadLeads(m, y))
    && (forall b {:trigger HeadOk(m, b)} :: HeadOk(m, b))
    && (forall e {:trigger EntryOk(m, e)} :: EntryOk(m, e))
    && (forall e, f {:trigger RanksDiffer(m, e, f)} :: RanksDiffer(m, e, f))
    && (forall e {:trigger QtidOk(m, e)} :: QtidOk(m, e))
    && (forall t, u {:trigger QuickApart(m, t, u)} :: QuickApart(m, t, u))
    && (forall t {:trigger MineOk(m, t)} :: MineOk(m, t))
  }

  /** The thread holds the lock. */
  predicate Holds(p: Pc) { p.SetFill? || p.SetPublish? || p.SetUnlock? || p.RemWalk? || p.RemUnlink? || p.RemUnlock? || p.Crashed? }

  /** From e the walk cannot miss the entry of t. */
  predicate OnWay(m: Mem, t: Thread, e: Ent) {
    && e != 0 && Linked(m, e) && BucketOf(m, e) == m.bucket(t)
    && t in m.mine && Linked(m, m.mine[t]) && m.rank[m.mine[t]] <= m.rank[e]
  }

  /** e, if it is not the end, was in the table at some time since the walk began, which t began after its last removal. */
  predicate Seen(m: Mem, t: Thread, e: Ent, since: nat) {
    && Get(m.last, t) < since <= m.clock
    && (e != 0 ==> Linked(m, e) && BucketOf(m, e) == m.bucket(t) && (e in m.live || since <= Get(m.died, e)))
  }

  predicate LinkOk(m: Mem, t: Thread, link: Link) {
    link.EntryLink? ==> Linked(m, link.x) && BucketOf(m, link.x) == m.bucket(t) && link.x in m.live
  }

  /** A new entry that only its thread knows of. */
  predicate Private(m: Mem, t: Thread, e: Ent) { t !in m.mine && 0 < e < m.unused && Get(m.maker, e) == t && !Linked(m, e) && Get(m.value, e) == Get(m.given, t) }

  /** What holds of a thread that stands at p. */
  predicate PcOk(m: Mem, t: Thread, p: Pc) {
    match p
    case SetLock(e) => Private(m, t, e) && e !in m.owner && e !in m.qtid
    case SetFill(e) => Private(m, t, e) && e !in m.owner && e !in m.qtid
    case SetPublish(e) => Private(m, t, e) && Get(m.owner, e) == t && Get(m.next, e) == Get(m.head, m.bucket(t)) && Get(m.qtid, e) == 0
    case GetQtid(q, _, _) => Quick(m, t, q)
    case GetHead(q, _) => Quick(m, t, q)
    case GetWalk(q, _, e, since) => Quick(m, t, q) && Seen(m, t, e, since) && (t in m.mine ==> OnWay(m, t, e))
    case GetStore(q, _, e) => Quick(m, t, q) && t in m.mine && e == m.mine[t]
    case GetCache(q, _, e) => Quick(m, t, q) && t in m.mine && e == m.mine[t] && Get(m.qtid, e) == q
    case Got(found, v) => if t in m.mine then found && v == Get(m.given, t) else !found && v == 0
    case RemWalk(link, e) => Load(m, t, link) == e && LinkOk(m, t, link) && (t in m.mine ==> OnWay(m, t, e))
    case RemUnlink(link, e) => Load(m, t, link) == e && LinkOk(m, t, link) && t in m.mine && e == m.mine[t] && Get(m.qtid, e) == 0
    case Crashed => t !in m.mine
    case _ => true
  }

  ghost predicate ThreadOk(s: State, t: Thread) {
    PcOk(s.m, t, PcOf(s, t)) && (Holds(PcOf(s, t)) <==> s.lock == t && 0 < t)
  }

  ghost predicate Inv(s: State) {
    MemOk(s.m) && forall t {:trigger ThreadOk(s, t)} :: ThreadOk(s, t)
  }

  // ---------- every step keeps it ----------

  lemma Facts(m: Mem, e: Ent, f: Ent)
    requires MemOk(m)
    ensures NextOk(m, e) && DiesOk(m, e) && EntryOk(m, e) && QtidOk(m, e) && HeadLeads(m, e) && HeadOk(m, e) && MineOk(m, e)
    ensures Leads(m, e, f) && RanksDiffer(m, e, f) && QuickApart(m, e, f)
  {
  }


  lemma AllocateOk(m: Mem, t: Thread, v: nat)
    requires MemOk(m) && t !in m.mine
    ensures MemOk(Allocate(m, t, v))
  {
    var w := Allocate(m, t, v);
    forall e ensures NextOk(w, e) && DiesOk(w, e) && EntryOk(w, e) && QtidOk(w, e) && HeadLeads(w, e) && HeadOk(w, e) && MineOk(w, e) {
      Facts(m, e, 0);
    }
    forall e, y ensures Leads(w, e, y) && RanksDiffer(w, e, y) && QuickApart(w, e, y) { Facts(m, e, y); }
  }

  /** The parts of the table that only allocation and the choices of a thread change. */
  ghost predicate SameParts(m: Mem, w: Mem) {
    && w.bucket == m.bucket && w.quick == m.quick && w.given == m.given && w.value == m.value
    && w.unused == m.unused && w.maker == m.maker
  }

  lemma FillIs(m: Mem, t: Thread, e: Ent)
    ensures var w := Fill(m, t, e);
      && SameParts(m, w) && w.mine == m.mine && w.rank == m.rank && w.live == m.live && w.owner == m.owner[e := t] && w.qtid == m.qtid[e := 0]
      && w.next == m.next[e := Get(m.head, m.bucket(t))] && w.head == m.head && w.died == m.died && w.last == m.last && w.clock == m.clock
  {
  }

  lemma PublishIs(m: Mem, t: Thread, e: Ent)
    ensures var w := Publish(m, t, e);
      && SameParts(m, w) && w.owner == m.owner && w.qtid == m.qtid && w.next == m.next && w.head == m.head[m.bucket(t) := e]
      && w.mine == m.mine[t := e] && w.rank == m.rank[e := m.clock] && w.live == m.live + {e}
      && w.died == m.died && w.last == m.last && w.clock == m.clock + 1
  {
  }

  lemma UnlinkIs(m: Mem, t: Thread, link: Link, e: Ent)
    ensures var w := Unlink(m, t, link, e);
      && SameParts(m, w) && w.owner == m.owner && w.qtid == m.qtid && w.mine == m.mine - {t} && w.rank == m.rank && w.live == m.live - {e}
      && w.died == m.died[e := m.clock] && w.last == m.last[t := m.clock] && w.clock == m.clock + 1
      && w.next == (if link.EntryLink? then m.next[link.x := Get(m.next, e)] else m.next)
      && w.head == (if link.HeadLink? then m.head[m.bucket(t) := Get(m.next, e)] else m.head)
  {
  }

  lemma FillFacts(m: Mem, t: Thread, e: Ent)
    requires MemOk(m) && PcOk(m, t, SetFill(e))
    ensures !Linked(m, e) && e !in m.live && 0 < e < m.unused && t !in m.mine
  {
    Facts(m, e, 0);
    hide MemOk;
  }

  lemma FillEntry(m: Mem, t: Thread, e: Ent, x: Ent)
    requires MemOk(m) && PcOk(m, t, SetFill(e)) && 0 < t
    ensures var w := Fill(m, t, e); EntryOk(w, x) && QtidOk(w, x) && MineOk(w, x)
  {
    hide MemOk, PcOk;
    FillFacts(m, t, e);
    Facts(m, x, 0);
    FillIs(m, t, e);
    hide Leads, RanksDiffer, QuickApart, NextOk, DiesOk, HeadLeads, HeadOk, Fill;
  }

  lemma FillNext(m: Mem, t: Thread, e: Ent, x: Ent)
    requires MemOk(m) && PcOk(m, t, SetFill(e)) && 0 < t
    ensures var w := Fill(m, t, e); NextOk(w, x) && DiesOk(w, x) && HeadLeads(w, x) && HeadOk(w, x)
  {
    Facts(m, x, 0);
    assert !Linked(m, e);
    FillIs(m, t, e);
    hide MemOk, Leads, RanksDiffer, QuickApart, EntryOk, QtidOk, MineOk, Fill, PcOk, Private;
  }

  lemma FillOk(m: Mem, t: Thread, e: Ent)
    requires MemOk(m) && PcOk(m, t, SetFill(e)) && 0 < t
    ensures MemOk(Fill(m, t, e)) && PcOk(Fill(m, t, e), t, SetPublish(e))
  {
    var w := Fill(m, t, e);
    forall x, y ensures Leads(w, x, y) && RanksDiffer(w, x, y) && QuickApart(w, x, y) { Facts(m, x, y); }
    hide NextOk, DiesOk, EntryOk, QtidOk, HeadLeads, HeadOk, MineOk, Leads, RanksDiffer, QuickApart;
    forall x ensures NextOk(w, x) && DiesOk(w, x) && EntryOk(w, x) && QtidOk(w, x) && HeadLeads(w, x) && HeadOk(w, x) && MineOk(w, x) {
      FillEntry(m, t, e, x);
      FillNext(m, t, e, x);
    }
  }

  /** What the steps of others have to keep for a thread at p that does not hold the lock. */
  predicate Kept(m: Mem, w: Mem, u: Thread, p: Pc) {
    && (u in w.mine <==> u in m.mine) && (u in m.mine ==> w.mine[u] == m.mine[u])
    && w.quick == m.quick && Get(w.given, u) == Get(m.given, u)
    && (p.SetLock? ==> Private(w, u, p.e) && p.e !in w.owner && p.e !in w.qtid)
    && (p.GetCache? ==> Get(w.qtid, p.e) == Get(m.qtid, p.e))
    && (p.GetWalk? ==> Seen(w, u, p.e, p.since) && (u in m.mine ==> OnWay(w, u, p.e)))
  }

  /** What is used of PcOk to show that. */
  predicate Stands(m: Mem, u: Thread, p: Pc) {
    && (p.SetLock? ==> Private(m, u, p.e) && p.e !in m.owner && p.e !in m.qtid)
    && (p.GetWalk? ==> Seen(m, u, p.e, p.since) && (u in m.mine ==> OnWay(m, u, p.e)))
  }

  lemma StandsAt(m: Mem, u: Thread, p: Pc)
    requires PcOk(m, u, p)
    ensures Stands(m, u, p)
  {
    hide Private, OnWay, Seen;
  }

  lemma KeptOk(m: Mem, w: Mem, u: Thread, p: Pc)
    requires PcOk(m, u, p) && !Holds(p) && Kept(m, w, u, p)
    ensures PcOk(w, u, p)
  {
    hide Private, OnWay, Seen;
  }

  lemma FillOthers(m: Mem, t: Thread, e: Ent, u: Thread, x: Ent, since: nat)
    requires MemOk(m) && u != t && !Linked(m, e) && Get(m.maker, e) == t
    ensures var w := Fill(m, t, e);
      && (OnWay(m, u, x) ==> OnWay(w, u, x)) && (Seen(m, u, x, since) ==> Seen(w, u, x, since))
      && (Private(m, u, x) ==> Private(w, u, x) && x != e)
  {
    Facts(m, x, 0);
    FillIs(m, t, e);
    hide Fill, MemOk;
  }

  lemma FillThread(m: Mem, t: Thread, e: Ent, u: Thread, p: Pc)
    requires MemOk(m) && PcOk(m, u, p) && PcOk(m, t, SetFill(e)) && u != t && !Holds(p)
    ensures PcOk(Fill(m, t, e), u, p)
  {
    StandsAt(m, u, p);
    assert !Linked(m, e) && Get(m.maker, e) == t;
    assert p.GetCache? ==> p.e != e by { if u in m.mine { MineHolds(m, u); } }
    FillOthers(m, t, e, u, if p.SetLock? || p.GetWalk? then p.e else 0, if p.GetWalk? then p.since else 0);
    FillIs(m, t, e);
    hide MemOk, PcOk, Fill, OnWay, Private, Linked, Seen;
    assert Kept(m, Fill(m, t, e), u, p);
    hide Kept, Stands;
    KeptOk(m, Fill(m, t, e), u, p);
  }

  lemma PublishNext(m: Mem, t: Thread, e: Ent, x: Ent)
    requires MemOk(m) && PcOk(m, t, SetPublish(e)) && 0 < t
    ensures var w := Publish(m, t, e); NextOk(w, x) && DiesOk(w, x)
  {
    var h := Get(m.head, m.bucket(t));
    Facts(m, x, 0);
    Facts(m, m.bucket(t), 0);
    Facts(m, h, 0);
    assert !Linked(m, e) && e !in m.live && Get(m.owner, e) == t && Get(m.next, e) == h by { Facts(m, e, 0); }
    assert Linked(m, x) ==> Get(m.next, x) != e || e == 0;
    assert h != 0 ==> m.rank[h] < m.clock && h in m.live;
    PublishIs(m, t, e);
    hide MemOk, Leads, RanksDiffer, QuickApart, HeadLeads, QtidOk, MineOk, EntryOk, HeadOk, Publish, PcOk, Private;
  }

  lemma PublishEntry(m: Mem, t: Thread, e: Ent, x: Ent)
    requires MemOk(m) && PcOk(m, t, SetPublish(e)) && 0 < t
    ensures EntryOk(Publish(m, t, e), x)
  {
    Facts(m, x, 0);
    assert Private(m, t, e) && Get(m.owner, e) == t && e !in m.live by { Facts(m, e, 0); }
    PublishIs(m, t, e);
    hide MemOk, Leads, RanksDiffer, QuickApart, HeadLeads, NextOk, DiesOk, HeadOk, QtidOk, MineOk, Publish, PcOk;
  }

  lemma PublishMine(m: Mem, t: Thread, e: Ent, x: Ent)
    requires MemOk(m) && PcOk(m, t, SetPublish(e)) && 0 < t
    ensures var w := Publish(m, t, e); QtidOk(w, x) && MineOk(w, x)
  {
    Facts(m, x, 0);
    assert Private(m, t, e) && Get(m.owner, e) == t && Get(m.qtid, e) == 0;
    PublishIs(m, t, e);
    hide MemOk, Leads, RanksDiffer, QuickApart, HeadLeads, NextOk, DiesOk, HeadOk, EntryOk, Publish, PcOk;
  }

  lemma PublishHead(m: Mem, t: Thread, e: Ent, x: Ent)
    requires MemOk(m) && PcOk(m, t, SetPublish(e)) && 0 < t
    ensures var w := Publish(m, t, e); HeadLeads(w, x) && HeadOk(w, x)
  {
    Facts(m, x, 0);
    assert !Linked(m, e) && e != 0 && Get(m.owner, e) == t && e !in m.live by { Facts(m, e, 0); }
    PublishIs(m, t, e);
    hide MemOk, Leads, RanksDiffer, QuickApart, NextOk, DiesOk, QtidOk, MineOk, Publish, PcOk, Private;
  }

  lemma PublishPair(m: Mem, t: Thread, e: Ent, x: Ent, y: Ent)
    requires MemOk(m) && PcOk(m, t, SetPublish(e)) && 0 < t
    ensures var w := Publish(m, t, e); Leads(w, x, y) && RanksDiffer(w, x, y) && QuickApart(w, x, y)
  {
    Facts(m, x, y);
    Facts(m, y, x);
    hide MemOk, NextOk, DiesOk, QtidOk, MineOk;
  }

  lemma PublishOk(m: Mem, t: Thread, e: Ent)
    requires MemOk(m) && PcOk(m, t, SetPublish(e)) && 0 < t
    ensures MemOk(Publish(m, t, e)) && PcOk(Publish(m, t, e), t, SetUnlock)
  {
    var w := Publish(m, t, e);
    hide NextOk, DiesOk, EntryOk, QtidOk, HeadLeads, HeadOk, MineOk, Leads, RanksDiffer, QuickApart;
    forall x ensures NextOk(w, x) && DiesOk(w, x) && EntryOk(w, x) && QtidOk(w, x) && HeadLeads(w, x) && HeadOk(w, x) && MineOk(w, x) {
      PublishNext(m, t, e, x);
      PublishEntry(m, t, e, x);
      PublishMine(m, t, e, x);
      PublishHead(m, t, e, x);
    }
    forall x, y ensures Leads(w, x, y) && RanksDiffer(w, x, y) && QuickApart(w, x, y) { PublishPair(m, t, e, x, y); }
  }

  lemma PublishOthers(m: Mem, t: Thread, e: Ent, u: Thread, x: Ent, since: nat)
    requires u != t && !Linked(m, e)
    ensures var w := Publish(m, t, e);
      && (OnWay(m, u, x) ==> OnWay(w, u, x)) && (Seen(m, u, x, since) ==> Seen(w, u, x, since))
      && (Private(m, u, x) && x != e ==> Private(w, u, x))
  {
    PublishIs(m, t, e);
    hide Publish;
  }

  lemma PublishThread(m: Mem, t: Thread, e: Ent, u: Thread, p: Pc)
    requires MemOk(m) && PcOk(m, u, p) && PcOk(m, t, SetPublish(e)) && u != t && !Holds(p)
    ensures PcOk(Publish(m, t, e), u, p)
  {
    StandsAt(m, u, p);
    assert !Linked(m, e) && Get(m.maker, e) == t;
    assert p.SetLock? ==> Get(m.maker, p.e) == u;
    hide MemOk, PcOk;
    PublishIs(m, t, e);
    PublishOthers(m, t, e, u, if p.SetLock? || p.GetWalk? then p.e else 0, if p.GetWalk? then p.since else 0);
    hide Publish, OnWay, Private, Linked, Seen;
    assert Kept(m, Publish(m, t, e), u, p);
    hide Kept, Stands;
    KeptOk(m, Publish(m, t, e), u, p);
  }

  lemma SetQtidOk(m: Mem, t: Thread, e: Ent, q: nat)
    requires MemOk(m) && Owns(m, t) && e == m.mine[t] && (q != 0 ==> Quick(m, t, q))
    ensures MemOk(SetQtid(m, e, q))
  {
    var w := SetQtid(m, e, q);
    forall x ensures NextOk(w, x) && DiesOk(w, x) && EntryOk(w, x) && QtidOk(w, x) && HeadLeads(w, x) && HeadOk(w, x) && MineOk(w, x) {
      Facts(m, x, 0);
    }
    forall x, y ensures Leads(w, x, y) && RanksDiffer(w, x, y) && QuickApart(w, x, y) { Facts(m, x, y); }
  }

  lemma SetQtidKeeps(m: Mem, e: Ent, q: nat, u: Thread, x: Ent, since: nat, link: Link)
    ensures var w := SetQtid(m, e, q);
      && (OnWay(m, u, x) ==> OnWay(w, u, x)) && (Seen(m, u, x, since) ==> Seen(w, u, x, since)) && (Private(m, u, x) ==> Private(w, u, x))
      && (LinkOk(m, u, link) ==> LinkOk(w, u, link)) && Load(w, u, link) == Load(m, u, link) && (Quick(w, u, x) <==> Quick(m, u, x))
      && w.mine == m.mine && Get(w.given, u) == Get(m.given, u) && w.owner == m.owner && w.head == m.head && w.next == m.next && w.bucket == m.bucket
      && (x != e ==> Get(w.qtid, x) == Get(m.qtid, x) && (x in w.qtid <==> x in m.qtid))
      && (Private(m, u, x) && Linked(m, e) ==> x != e)
  {
  }

  lemma SetQtidHolder(m: Mem, e: Ent, q: nat, u: Thread, p: Pc)
    requires PcOk(m, u, p) && Holds(p) && Linked(m, e) && (u in m.mine ==> m.mine[u] != e)
    ensures PcOk(SetQtid(m, e, q), u, p)
  {
    hide SetQtid, OnWay, Private, LinkOk, Load, Linked;
    SetQtidKeeps(m, e, q, u, 0, 0, HeadLink);
    match p
    case SetFill(x) => SetQtidKeeps(m, e, q, u, x, 0, HeadLink);
    case SetPublish(x) => SetQtidKeeps(m, e, q, u, x, 0, HeadLink);
    case RemWalk(link, x) => SetQtidKeeps(m, e, q, u, x, 0, link);
    case RemUnlink(link, x) => SetQtidKeeps(m, e, q, u, x, 0, link);
    case _ =>
  }

  lemma SetQtidReader(m: Mem, e: Ent, q: nat, u: Thread, p: Pc)
    requires PcOk(m, u, p) && !Holds(p) && Linked(m, e) && (u in m.mine ==> m.mine[u] != e)
    ensures PcOk(SetQtid(m, e, q), u, p)
  {
    StandsAt(m, u, p);
    assert p.GetCache? ==> p.e != e;
    hide PcOk, Linked, OnWay, Seen, Private, Holds;
    SetQtidKeeps(m, e, q, u, if p.SetLock? || p.GetWalk? then p.e else 0, if p.GetWalk? then p.since else 0, HeadLink);
    assert SetQtid(m, e, q).quick == m.quick;
    hide SetQtid;
    assert Kept(m, SetQtid(m, e, q), u, p);
    hide Kept, Stands;
    KeptOk(m, SetQtid(m, e, q), u, p);
  }

  lemma SetQtidThread(m: Mem, t: Thread, e: Ent, q: nat, u: Thread, p: Pc)
    requires MemOk(m) && PcOk(m, u, p) && u != t && Owns(m, t) && e == m.mine[t]
    ensures PcOk(SetQtid(m, e, q), u, p)
  {
    hide PcOk, SetQtid;
    assert u in m.mine ==> m.mine[u] != e by { Facts(m, u, 0); }
    if Holds(p) { SetQtidHolder(m, e, q, u, p); } else { SetQtidReader(m, e, q, u, p); }
  }

  // Unlinking: only the link that the remover holds leads to its entry among the live ones.

  lemma OnlyLink(m: Mem, t: Thread, link: Link, e: Ent, x: Ent)
    requires MemOk(m) && PcOk(m, t, RemUnlink(link, e))
    ensures Linked(m, x) && Get(m.next, x) == e && x in m.live ==> link == EntryLink(x)
  {
    Removed(m, t, link, e);
    hide MemOk, PcOk;
    Facts(m, x, if link.EntryLink? then link.x else e);
    Facts(m, if link.EntryLink? then link.x else e, x);
    hide DiesOk, EntryOk, QtidOk, MineOk, QuickApart;
  }

  lemma NotHead(m: Mem, t: Thread, link: Link, e: Ent)
    requires MemOk(m) && PcOk(m, t, RemUnlink(link, e)) && link.EntryLink?
    ensures Get(m.head, m.bucket(t)) != e
  {
    Facts(m, t, 0);
    Facts(m, e, 0);
    Facts(m, link.x, 0);
  }

  /** The entry that is unlinked, and the link to it. */
  lemma Removed(m: Mem, t: Thread, link: Link, e: Ent)
    requires MemOk(m) && PcOk(m, t, RemUnlink(link, e))
    ensures e in m.live && Linked(m, e) && Get(m.owner, e) == t && BucketOf(m, e) == m.bucket(t) && e != 0 && m.mine[t] == e
    ensures var n := Get(m.next, e); n != e && (n != 0 ==> n in m.live && Linked(m, n) && BucketOf(m, n) == m.bucket(t) && m.rank[n] < m.rank[e])
    ensures link.EntryLink? ==> link.x != e && link.x in m.live && Linked(m, link.x) && Get(m.next, link.x) == e && m.rank[e] < m.rank[link.x]
    ensures link.HeadLink? ==> Get(m.head, m.bucket(t)) == e
  {
    Facts(m, t, 0);
    Facts(m, e, 0);
    if link.EntryLink? { Facts(m, link.x, 0); }
  }

  lemma UnlinkNext(m: Mem, t: Thread, link: Link, e: Ent, x: Ent)
    requires MemOk(m) && PcOk(m, t, RemUnlink(link, e))
    ensures NextOk(Unlink(m, t, link, e), x)
  {
    hide MemOk, PcOk;
    Removed(m, t, link, e);
    Facts(m, x, 0);
    UnlinkIs(m, t, link, e);
    hide RanksDiffer, QuickApart, HeadLeads, Leads, QtidOk, HeadOk, MineOk, EntryOk, DiesOk, Unlink;
  }

  /** The facts that make DiesOk last when e is unlinked. */
  lemma DiesAfter(m: Mem, w: Mem, link: Link, e: Ent, x: Ent)
    requires w.rank == m.rank && w.live == m.live - {e} && w.died == m.died[e := m.clock]
    requires w.next == if link.EntryLink? then m.next[link.x := Get(m.next, e)] else m.next
    requires Linked(m, x) ==> DiesOk(m, x) && (x !in m.live ==> Get(m.died, x) < m.clock)
    requires Linked(m, x) && Get(m.next, x) == e && x in m.live ==> link == EntryLink(x)
    requires e in m.live && var n := Get(m.next, e); n != e && (n != 0 ==> n in m.live)
    ensures DiesOk(w, x)
  {
  }

  lemma UnlinkDies(m: Mem, t: Thread, link: Link, e: Ent, x: Ent)
    requires MemOk(m) && PcOk(m, t, RemUnlink(link, e))
    ensures DiesOk(Unlink(m, t, link, e), x)
  {
    hide MemOk, PcOk;
    Removed(m, t, link, e);
    OnlyLink(m, t, link, e, x);
    Facts(m, x, 0);
    assert Linked(m, x) && x !in m.live ==> Get(m.died, x) < m.clock;
    hide RanksDiffer, QuickApart, HeadLeads, Leads, QtidOk, HeadOk, MineOk, NextOk, EntryOk, Unlink, BucketOf, DiesOk;
    UnlinkIs(m, t, link, e);
    DiesAfter(m, Unlink(m, t, link, e), link, e, x);
  }

  lemma UnlinkEntry(m: Mem, t: Thread, link: Link, e: Ent, x: Ent)
    requires MemOk(m) && PcOk(m, t, RemUnlink(link, e))
    ensures EntryOk(Unlink(m, t, link, e), x)
  {
    hide MemOk, PcOk;
    Removed(m, t, link, e);
    Facts(m, x, 0);
    Facts(m, Get(m.owner, x), 0);
    UnlinkIs(m, t, link, e);
    hide RanksDiffer, QuickApart, HeadLeads, Leads, NextOk, DiesOk, HeadOk, QtidOk, Unlink;
  }

  lemma UnlinkQtid(m: Mem, t: Thread, link: Link, e: Ent, x: Ent)
    requires MemOk(m) && PcOk(m, t, RemUnlink(link, e))
    ensures QtidOk(Unlink(m, t, link, e), x)
  {
    assert Get(m.qtid, e) == 0;
    hide MemOk, PcOk;
    Facts(m, x, 0);
    UnlinkIs(m, t, link, e);
    hide RanksDiffer, QuickApart, HeadLeads, Leads, NextOk, DiesOk, HeadOk, EntryOk, MineOk, Unlink;
  }

  lemma UnlinkMine(m: Mem, t: Thread, link: Link, e: Ent, x: Thread)
    requires MemOk(m) && PcOk(m, t, RemUnlink(link, e))
    ensures MineOk(Unlink(m, t, link, e), x)
  {
    hide MemOk, PcOk;
    Removed(m, t, link, e);
    Facts(m, x, 0);
    UnlinkIs(m, t, link, e);
    hide RanksDiffer, QuickApart, HeadLeads, Leads, NextOk, DiesOk, HeadOk, EntryOk, QtidOk, Unlink;
  }

  lemma UnlinkHead(m: Mem, t: Thread, link: Link, e: Ent, x: Ent)
    requires MemOk(m) && PcOk(m, t, RemUnlink(link, e))
    ensures var w := Unlink(m, t, link, e); HeadLeads(w, x) && HeadOk(w, x)
  {
    hide MemOk, PcOk;
    Removed(m, t, link, e);
    Facts(m, e, x);
    Facts(m, x, e);
    if link.EntryLink? { NotHead(m, t, link, e); }
    UnlinkIs(m, t, link, e);
    hide QuickApart, QtidOk, MineOk, DiesOk, Unlink;
  }

  lemma UnlinkPair(m: Mem, t: Thread, link: Link, e: Ent, x: Ent, y: Ent)
    requires MemOk(m) && PcOk(m, t, RemUnlink(link, e))
    ensures var w := Unlink(m, t, link, e); Leads(w, x, y) && RanksDiffer(w, x, y) && QuickApart(w, x, y)
  {
    hide MemOk, PcOk;
    Removed(m, t, link, e);
    Facts(m, x, y);
    Facts(m, e, y);
    UnlinkIs(m, t, link, e);
    hide QtidOk, HeadLeads, MineOk, DiesOk, Unlink, HeadOk;
  }

  lemma UnlinkOk(m: Mem, t: Thread, link: Link, e: Ent)
    requires MemOk(m) && PcOk(m, t, RemUnlink(link, e))
    ensures MemOk(Unlink(m, t, link, e))
  {
    var w := Unlink(m, t, link, e);
    assert 0 < w.unused;
    hide NextOk, DiesOk, EntryOk, QtidOk, HeadLeads, HeadOk, MineOk, Leads, RanksDiffer, QuickApart, PcOk, Unlink;
    forall x ensures NextOk(w, x) && DiesOk(w, x) && EntryOk(w, x) && QtidOk(w, x) && HeadLeads(w, x) && HeadOk(w, x) && MineOk(w, x) {
      UnlinkNext(m, t, link, e, x);
      UnlinkDies(m, t, link, e, x);
      UnlinkEntry(m, t, link, e, x);
      UnlinkQtid(m, t, link, e, x);
      UnlinkMine(m, t, link, e, x);
      UnlinkHead(m, t, link, e, x);
    }
    forall x, y ensures Leads(w, x, y) && RanksDiffer(w, x, y) && QuickApart(w, x, y) { UnlinkPair(m, t, link, e, x, y); }
  }

  lemma UnlinkOthers(m: Mem, t: Thread, link: Link, e: Ent, u: Thread, x: Ent, since: nat)
    requires u != t && Linked(m, e) && e in m.live
    ensures var w := Unlink(m, t, link, e);
      && (OnWay(m, u, x) ==> OnWay(w, u, x)) && (Seen(m, u, x, since) ==> Seen(w, u, x, since)) && (Private(m, u, x) ==> Private(w, u, x))
  {
    UnlinkIs(m, t, link, e);
    hide Unlink;
  }

  lemma UnlinkThread(m: Mem, t: Thread, link: Link, e: Ent, u: Thread, p: Pc)
    requires MemOk(m) && PcOk(m, u, p) && PcOk(m, t, RemUnlink(link, e)) && u != t && !Holds(p)
    ensures PcOk(Unlink(m, t, link, e), u, p)
  {
    StandsAt(m, u, p);
    Removed(m, t, link, e);
    hide MemOk, PcOk;
    UnlinkIs(m, t, link, e);
    UnlinkOthers(m, t, link, e, u, if p.SetLock? || p.GetWalk? then p.e else 0, if p.GetWalk? then p.since else 0);
    hide Unlink, OnWay, Private, Linked, Seen;
    assert Kept(m, Unlink(m, t, link, e), u, p);
    hide Kept, Stands;
    KeptOk(m, Unlink(m, t, link, e), u, p);
  }

  lemma AllocateKeeps(m: Mem, t: Thread, v: nat, u: Thread, x: Ent)
    requires u != t
    ensures var w := Allocate(m, t, v);
      && (OnWay(m, u, x) ==> OnWay(w, u, x)) && (Private(m, u, x) ==> Private(w, u, x))
      && (Quick(w, u, x) <==> Quick(m, u, x)) && Get(w.given, u) == Get(m.given, u) && w.bucket == m.bucket && w.mine == m.mine
      && w.owner == m.owner && w.qtid == m.qtid && w.head == m.head && w.next == m.next && w.rank == m.rank && w.live == m.live
      && w.died == m.died && w.last == m.last && w.clock == m.clock
  {
  }

  lemma AllocateThread(m: Mem, t: Thread, v: nat, u: Thread, p: Pc)
    requires MemOk(m) && PcOk(m, u, p) && u != t
    ensures PcOk(Allocate(m, t, v), u, p)
  {
    hide MemOk, Allocate, OnWay, Private, Quick;
    match p
    case SetLock(e) => AllocateKeeps(m, t, v, u, e);
    case SetFill(e) => AllocateKeeps(m, t, v, u, e);
    case SetPublish(e) => AllocateKeeps(m, t, v, u, e);
    case GetQtid(q, _, _) => AllocateKeeps(m, t, v, u, q);
    case GetHead(q, _) => AllocateKeeps(m, t, v, u, q);
    case GetWalk(q, _, e, _) => AllocateKeeps(m, t, v, u, q); AllocateKeeps(m, t, v, u, e);
    case GetStore(q, _, e) => AllocateKeeps(m, t, v, u, q);
    case GetCache(q, _, e) => AllocateKeeps(m, t, v, u, q);
    case RemWalk(_, e) => AllocateKeeps(m, t, v, u, e);
    case _ => AllocateKeeps(m, t, v, u, 0);
  }

  // ---------- quick thread ids ----------

  /** Only the quick thread ids differ, and only those of t. */
  ghost predicate OnlyQuick(m: Mem, w: Mem, t: Thread) {
    && w == m.(quick := w.quick)
    && (forall u :: u != t ==> (u in w.quick <==> u in m.quick) && (u in m.quick ==> w.quick[u] == m.quick[u]))
  }

  lemma TakeIs(m: Mem, t: Thread, q: nat)
    requires MemOk(m) && q != 0 && forall u :: u in m.quick ==> q !in m.quick[u]
    ensures var w := TakeQuick(m, t, q);
      OnlyQuick(m, w, t) && (forall k :: Quick(m, t, k) ==> Quick(w, t, k)) && forall x, y :: QuickApart(w, x, y)
  {
    var w := TakeQuick(m, t, q);
    forall x, y ensures QuickApart(w, x, y) {
      Facts(m, x, y);
      Facts(m, x, x);
    }
    hide MemOk;
  }

  lemma ReleaseIs(m: Mem, t: Thread)
    requires MemOk(m)
    ensures var w := ReleaseQuick(m, t); OnlyQuick(m, w, t) && forall x, y :: QuickApart(w, x, y)
  {
    var w := ReleaseQuick(m, t);
    forall x, y ensures QuickApart(w, x, y) { Facts(m, x, y); }
    hide MemOk;
  }

  /** Quick thread ids may come, and may go when their thread has no entry. */
  lemma QuickOk(m: Mem, w: Mem, t: Thread)
    requires MemOk(m) && OnlyQuick(m, w, t) && forall x, y {:trigger QuickApart(w, x, y)} :: QuickApart(w, x, y)
    requires t !in m.mine || forall q :: Quick(m, t, q) ==> Quick(w, t, q)
    ensures MemOk(w)
  {
    forall x ensures NextOk(w, x) && DiesOk(w, x) && EntryOk(w, x) && QtidOk(w, x) && HeadLeads(w, x) && HeadOk(w, x) && MineOk(w, x) {
      Facts(m, x, 0);
    }
    forall x, y ensures Leads(w, x, y) && RanksDiffer(w, x, y) { Facts(m, x, y); }
  }

  lemma QuickThread(m: Mem, w: Mem, t: Thread, u: Thread, p: Pc)
    requires OnlyQuick(m, w, t) && u != t && PcOk(m, u, p)
    ensures PcOk(w, u, p)
  {
    assert forall q :: Quick(w, u, q) <==> Quick(m, u, q);
    hide Quick;
  }

  // ---------- the walks ----------

  /** A reader whose entry is in the table does not reach the end of the chain before it meets its entry. */
  lemma WalkOn(m: Mem, t: Thread, e: Ent)
    requires MemOk(m) && OnWay(m, t, e)
    ensures Get(m.owner, e) != t ==> OnWay(m, t, Get(m.next, e))
  {
    var y := m.mine[t];
    Facts(m, e, y);
    Facts(m, Get(m.next, e), y);
    Facts(m, y, e);
    Facts(m, t, 0);
    hide MemOk, HeadLeads, HeadOk, QuickApart, QtidOk, DiesOk;
  }

  lemma WalkStart(m: Mem, t: Thread)
    requires MemOk(m)
    ensures t in m.mine ==> OnWay(m, t, Get(m.head, m.bucket(t)))
    ensures Seen(m, t, Get(m.head, m.bucket(t)), m.clock)
  {
    Facts(m, t, 0);
    if t in m.mine { Facts(m, m.mine[t], 0); }
    Facts(m, m.bucket(t), 0);
    hide MemOk;
  }

  /** The entry behind one that was in the table since the walk began was so too. */
  lemma SeenOn(m: Mem, t: Thread, e: Ent, since: nat)
    requires MemOk(m) && Seen(m, t, e, since) && e != 0
    ensures Seen(m, t, Get(m.next, e), since)
  {
    Facts(m, e, 0);
    Facts(m, Get(m.next, e), 0);
    hide MemOk, HeadLeads, HeadOk, QuickApart, QtidOk, MineOk;
  }

  /** A walk meets no entry that its thread removed earlier, be it in an earlier life. */
  lemma SeenMine(m: Mem, t: Thread, e: Ent, since: nat)
    requires MemOk(m) && Seen(m, t, e, since) && e != 0 && Get(m.owner, e) == t
    ensures t in m.mine && m.mine[t] == e
  {
    Facts(m, e, 0);
    hide MemOk;
  }

  /** A cache entry that carries a quick thread id of t is the entry of t. */
  lemma CacheHit(m: Mem, t: Thread, q: nat, e: Ent)
    requires MemOk(m) && Quick(m, t, q) && Get(m.qtid, e) == q
    ensures t in m.mine && e == m.mine[t]
  {
    Facts(m, e, 0);
    Facts(m, t, Get(m.owner, e));
    Facts(m, t, t);
  }

  /** The entry of a thread holds the value it has set. */
  lemma MineHolds(m: Mem, t: Thread)
    requires MemOk(m) && t in m.mine
    ensures Get(m.value, m.mine[t]) == Get(m.given, t) && Owns(m, t)
  {
    Facts(m, t, 0);
    Facts(m, m.mine[t], 0);
    hide MemOk;
  }

  // ---------- steps and runs ----------

  /** The lock is taken from free, given back by its holder, or left alone. */
  predicate LockMoves(s: State, t: Thread, lock: Thread) {
    lock == s.lock || (s.lock == 0 && lock == t) || (s.lock == t && lock == 0)
  }

  lemma Combine(s: State, t: Thread, m: Mem, cache: map<nat, Ent>, lock: Thread, p: Pc)
    requires Inv(s) && 0 < t && MemOk(m) && PcOk(m, t, p) && (Holds(p) <==> lock == t) && LockMoves(s, t, lock)
    requires forall u {:trigger PcOf(s, u)} :: u != t ==> PcOk(m, u, PcOf(s, u))
    ensures Inv(State(m, cache, lock, s.pc[t := p]))
  {
    var w := State(m, cache, lock, s.pc[t := p]);
    hide PcOk, MemOk;
    forall u ensures ThreadOk(w, u) { assert ThreadOk(s, u) && ThreadOk(s, t); }
  }

  /** A step that changes nothing but the lock and where t stands. */
  lemma Move(s: State, t: Thread, cache: map<nat, Ent>, lock: Thread, p: Pc)
    requires Inv(s) && 0 < t && PcOk(s.m, t, p) && (Holds(p) <==> lock == t) && LockMoves(s, t, lock)
    ensures Inv(State(s.m, cache, lock, s.pc[t := p]))
  {
    forall u ensures PcOk(s.m, u, PcOf(s, u)) { assert ThreadOk(s, u); }
    hide PcOk, MemOk;
    Combine(s, t, s.m, cache, lock, p);
  }

  lemma Threads(s: State, t: Thread, u: Thread)
    requires Inv(s)
    ensures MemOk(s.m) && PcOk(s.m, u, PcOf(s, u)) && (Holds(PcOf(s, u)) <==> s.lock == u && 0 < u)
    ensures Holds(PcOf(s, t)) && u != t ==> !Holds(PcOf(s, u))
  {
    assert ThreadOk(s, u) && ThreadOk(s, t);
  }

  /** The table after the step, and where t stands. */
  function After(m: Mem, t: Thread, p: Pc, c: Choice): (Mem, Pc) {
    match p
    case Idle =>
      if c.ToSet? then (Allocate(m, t, c.v), SetLock(m.unused))
      else if c.ToTake? then (TakeQuick(m, t, c.q), Idle)
      else if c.ToRelease? then (ReleaseQuick(m, t), Idle)
      else (m, p)
    case SetFill(e) => (Fill(m, t, e), SetPublish(e))
    case SetPublish(e) => (Publish(m, t, e), SetUnlock)
    case GetStore(q, slot, e) => (SetQtid(m, e, q), GetCache(q, slot, e))
    case RemWalk(link, e) => (SetQtid(m, e, 0), RemUnlink(link, e))
    case RemUnlink(link, e) => (Unlink(m, t, link, e), RemUnlock)
    case _ => (m, p)
  }

  predicate ChangesTable(m: Mem, t: Thread, p: Pc, c: Choice) {
    (p.Idle? && (c.ToSet? || c.ToTake? || c.ToRelease?)) || p.SetFill? || p.SetPublish? || p.GetStore? || p.RemUnlink?
    || (p.RemWalk? && p.e != 0 && Get(m.owner, p.e) == t)
  }

  /** An entry that carries the name of the remover is its own, and is in the table. */
  lemma RemoverFinds(m: Mem, t: Thread, link: Link, e: Ent)
    requires MemOk(m) && PcOk(m, t, RemWalk(link, e)) && e != 0
    ensures e in m.live && Linked(m, e) && BucketOf(m, e) == m.bucket(t)
    ensures Get(m.owner, e) == t ==> Owns(m, t) && e == m.mine[t]
  {
    Facts(m, e, 0);
    Facts(m, t, 0);
    Facts(m, if link.EntryLink? then link.x else m.bucket(t), 0);
    hide MemOk;
  }

  lemma OtherChoice(m: Mem, t: Thread, c: Choice, u: Thread, o: Pc)
    requires MemOk(m) && PcOk(m, t, Idle) && PcOk(m, u, o) && u != t && ChangesTable(m, t, Idle, c) && MayChoose(m, t, c)
    ensures PcOk(After(m, t, Idle, c).0, u, o)
  {
    hide MemOk;
    if c.ToSet? {
      AllocateThread(m, t, c.v, u, o);
    } else if c.ToTake? {
      TakeIs(m, t, c.q);
      QuickThread(m, TakeQuick(m, t, c.q), t, u, o);
    } else {
      ReleaseIs(m, t);
      QuickThread(m, ReleaseQuick(m, t), t, u, o);
    }
  }

  lemma OtherThread(m: Mem, t: Thread, p: Pc, c: Choice, u: Thread, o: Pc)
    requires MemOk(m) && PcOk(m, t, p) && PcOk(m, u, o) && u != t && (Holds(p) ==> !Holds(o)) && ChangesTable(m, t, p, c)
    requires p.Idle? ==> MayChoose(m, t, c)
    ensures PcOk(After(m, t, p, c).0, u, o)
  {
    if p.RemWalk? { RemoverFinds(m, t, p.link, p.e); }
    if p.GetStore? { MineHolds(m, t); }
    hide MemOk;
    match p
    case Idle =>
      OtherChoice(m, t, c, u, o);
    case SetFill(e) => FillThread(m, t, e, u, o);
    case SetPublish(e) => PublishThread(m, t, e, u, o);
    case GetStore(q, _, e) => SetQtidThread(m, t, e, q, u, o);
    case RemWalk(_, e) => SetQtidThread(m, t, e, 0, u, o);
    case RemUnlink(link, e) => UnlinkThread(m, t, link, e, u, o);
    case _ =>
  }

  lemma AllocateOwn(m: Mem, t: Thread, v: nat)
    requires MemOk(m) && t !in m.mine
    ensures PcOk(Allocate(m, t, v), t, SetLock(m.unused))
  {
    Facts(m, m.unused, 0);
    hide NextOk, HeadLeads, HeadOk, Leads, RanksDiffer, QuickApart, QtidOk;
    assert 0 < m.unused;
  }

  lemma RemoverOwn(m: Mem, t: Thread, link: Link, e: Ent)
    requires MemOk(m) && PcOk(m, t, RemWalk(link, e)) && e != 0 && Get(m.owner, e) == t
    ensures MemOk(SetQtid(m, e, 0)) && PcOk(SetQtid(m, e, 0), t, RemUnlink(link, e))
  {
    RemoverFinds(m, t, link, e);
    SetQtidOk(m, t, e, 0);
    hide MemOk;
  }

  lemma StoreOwn(m: Mem, t: Thread, q: nat, slot: nat, e: Ent)
    requires MemOk(m) && PcOk(m, t, GetStore(q, slot, e))
    ensures MemOk(SetQtid(m, e, q)) && PcOk(SetQtid(m, e, q), t, GetCache(q, slot, e))
  {
    MineHolds(m, t);
    SetQtidOk(m, t, e, q);
    hide MemOk;
  }

  lemma ChoiceOwn(m: Mem, t: Thread, c: Choice)
    requires MemOk(m) && MayChoose(m, t, c) && (c.ToSet? || c.ToTake? || c.ToRelease?)
    ensures MemOk(After(m, t, Idle, c).0) && PcOk(After(m, t, Idle, c).0, t, After(m, t, Idle, c).1)
  {
    if c.ToSet? {
      AllocateOk(m, t, c.v);
      AllocateOwn(m, t, c.v);
    } else if c.ToTake? {
      TakeIs(m, t, c.q);
      QuickOk(m, TakeQuick(m, t, c.q), t);
    } else {
      ReleaseIs(m, t);
      QuickOk(m, ReleaseQuick(m, t), t);
    }
    hide MemOk, Allocate, TakeQuick, ReleaseQuick, OnlyQuick;
  }

  lemma OwnStep(m: Mem, t: Thread, p: Pc, c: Choice)
    requires MemOk(m) && PcOk(m, t, p) && 0 < t && ChangesTable(m, t, p, c) && (p.Idle? ==> MayChoose(m, t, c))
    ensures MemOk(After(m, t, p, c).0) && PcOk(After(m, t, p, c).0, t, After(m, t, p, c).1)
  {
    hide MemOk, Allocate, Fill, Publish, Unlink, MayChoose, TakeQuick, ReleaseQuick;
    match p
    case Idle => ChoiceOwn(m, t, c);
    case SetFill(e) => FillOk(m, t, e);
    case SetPublish(e) => PublishOk(m, t, e);
    case GetStore(q, slot, e) => StoreOwn(m, t, q, slot, e);
    case RemWalk(link, e) => RemoverOwn(m, t, link, e);
    case RemUnlink(link, e) => UnlinkOk(m, t, link, e);
    case _ =>
  }

  /** The thread's step changes the table as After says, and nothing else but its own position. */
  ghost predicate StepsTo(s: State, t: Thread, w: State, m: Mem, p: Pc) {
    w.m == m && w.pc == s.pc[t := p] && w.lock == s.lock && (Holds(PcOf(s, t)) <==> Holds(p))
  }

  lemma TableIdle(s: State, t: Thread, c: Choice)
    requires Enabled(s, t, c) && ChangesTable(s.m, t, PcOf(s, t), c) && PcOf(s, t).Idle?
    ensures var a := After(s.m, t, PcOf(s, t), c); StepsTo(s, t, Next(s, t, c), a.0, a.1)
  {
    hide Allocate, Fill, Publish, SetQtid, Unlink, TakeQuick, ReleaseQuick, Enabled, MayChoose;
  }

  lemma TableMoves(s: State, t: Thread, c: Choice)
    requires Enabled(s, t, c) && ChangesTable(s.m, t, PcOf(s, t), c) && !PcOf(s, t).Idle?
    ensures var a := After(s.m, t, PcOf(s, t), c); StepsTo(s, t, Next(s, t, c), a.0, a.1)
  {
    hide Allocate, Fill, Publish, SetQtid, Unlink, TakeQuick, ReleaseQuick, Enabled, MayChoose;
  }

  lemma TableIs(s: State, t: Thread, c: Choice)
    requires Enabled(s, t, c) && ChangesTable(s.m, t, PcOf(s, t), c)
    ensures var w, a := Next(s, t, c), After(s.m, t, PcOf(s, t), c);
      w.m == a.0 && w.pc == s.pc[t := a.1] && w.lock == s.lock && (Holds(PcOf(s, t)) <==> Holds(a.1))
  {
    hide Enabled, ChangesTable, After, Next, Holds;
    if PcOf(s, t).Idle? { TableIdle(s, t, c); } else { TableMoves(s, t, c); }
  }

  /** Steps that change the table. */
  lemma TableStep(s: State, t: Thread, c: Choice)
    requires Inv(s) && Enabled(s, t, c) && ChangesTable(s.m, t, PcOf(s, t), c)
    ensures Inv(Next(s, t, c))
  {
    var p := PcOf(s, t);
    Threads(s, t, t);
    TableIs(s, t, c);
    hide Inv, PcOk, MemOk, Next, After, ChangesTable;
    var w := Next(s, t, c);
    forall u | u != t ensures PcOk(w.m, u, PcOf(s, u)) {
      Threads(s, t, u);
      OtherThread(s.m, t, p, c, u, PcOf(s, u));
    }
    OwnStep(s.m, t, p, c);
    Combine(s, t, w.m, w.cache, w.lock, w.pc[t]);
  }

  /** Every step of every thread keeps the invariant. */
  lemma StepInv(s: State, t: Thread, c: Choice)
    requires Inv(s) && Enabled(s, t, c)
    ensures Inv(Next(s, t, c))
  {
    var p, m := PcOf(s, t), s.m;
    Threads(s, t, t);
    if ChangesTable(m, t, p, c) {
      TableStep(s, t, c);
    } else {
      MoveOk(m, t, p, s.cache, c);
      MoveIs(s, t, c);
      hide PcOk, MemOk, Inv;
      var w := Next(s, t, c);
      Move(s, t, w.cache, w.lock, w.pc[t]);
    }
  }

  /** Where a step leads that does not change the table. */
  function MoveTo(m: Mem, t: Thread, p: Pc, cache: map<nat, Ent>, c: Choice): Pc {
    match p
    case SetLock(e) => SetFill(e)
    case SetUnlock => Idle
    case Idle => if c.ToGet? then GetQtid(c.q, c.slot, Get(cache, c.slot)) else RemLock
    case GetQtid(q, slot, e) => if Get(m.qtid, e) == q then Got(true, Get(m.value, e)) else GetHead(q, slot)
    case GetHead(q, slot) => GetWalk(q, slot, Get(m.head, m.bucket(t)), m.clock)
    case GetWalk(q, slot, e, since) =>
      if e == 0 then Got(false, 0) else if Get(m.owner, e) == t then GetStore(q, slot, e) else GetWalk(q, slot, Get(m.next, e), since)
    case GetCache(q, slot, e) => Got(true, Get(m.value, e))
    case Got(_, _) => Idle
    case RemLock => RemWalk(HeadLink, Get(m.head, m.bucket(t)))
    case RemWalk(link, e) => if e == 0 then Crashed else RemWalk(EntryLink(e), Get(m.next, e))
    case RemUnlock => Idle
    case _ => p
  }

  lemma MoveIs(s: State, t: Thread, c: Choice)
    requires Enabled(s, t, c) && !ChangesTable(s.m, t, PcOf(s, t), c) && (Holds(PcOf(s, t)) <==> s.lock == t)
    ensures var w := Next(s, t, c);
      && w == State(s.m, w.cache, w.lock, s.pc[t := MoveTo(s.m, t, PcOf(s, t), s.cache, c)])
      && (Holds(MoveTo(s.m, t, PcOf(s, t), s.cache, c)) <==> w.lock == t) && LockMoves(s, t, w.lock)
  {
  }

  /** The fast path of getspecific. */
  lemma CacheMove(m: Mem, t: Thread, p: Pc, cache: map<nat, Ent>, c: Choice)
    requires MemOk(m) && PcOk(m, t, p) && (p.GetQtid? || p.GetCache?)
    ensures PcOk(m, t, MoveTo(m, t, p, cache, c))
  {
    if p.GetQtid? && Get(m.qtid, p.c) == p.q { CacheHit(m, t, p.q, p.c); }
    if t in m.mine { MineHolds(m, t); }
    hide MemOk, OnWay, Owns, Quick;
  }

  /** The slow path of getspecific. */
  lemma ReaderMoves(m: Mem, t: Thread, p: Pc, cache: map<nat, Ent>, c: Choice)
    requires MemOk(m) && PcOk(m, t, p) && (p.GetHead? || p.GetWalk?)
    ensures PcOk(m, t, MoveTo(m, t, p, cache, c))
  {
    hide MemOk, Quick;
    if p.GetHead? {
      WalkStart(m, t);
    } else if p.e != 0 {
      SeenOn(m, t, p.e, p.since);
      if Get(m.owner, p.e) == t { SeenMine(m, t, p.e, p.since); }
      if t in m.mine { WalkOn(m, t, p.e); }
    }
  }

  /** The moves of remove_specific. */
  lemma RemoverMoves(m: Mem, t: Thread, p: Pc, cache: map<nat, Ent>, c: Choice)
    requires MemOk(m) && PcOk(m, t, p) && !ChangesTable(m, t, p, c)
    requires p.RemLock? || p.RemWalk?
    ensures PcOk(m, t, MoveTo(m, t, p, cache, c))
  {
    hide MemOk, OnWay, Seen, Quick, Private, Owns;
    if p.RemLock? {
      WalkStart(m, t);
    } else if p.e != 0 {
      RemoverFinds(m, t, p.link, p.e);
      if t in m.mine { WalkOn(m, t, p.e); }
    } else {
      assert !OnWay(m, t, 0) by { OnWayNotEnd(m, t); }
    }
  }

  lemma OnWayNotEnd(m: Mem, t: Thread)
    ensures !OnWay(m, t, 0)
  {
  }

  lemma MoveOk(m: Mem, t: Thread, p: Pc, cache: map<nat, Ent>, c: Choice)
    requires MemOk(m) && PcOk(m, t, p) && !ChangesTable(m, t, p, c) && !p.Crashed?
    requires p.Idle? && c.ToGet? ==> Quick(m, t, c.q)
    ensures PcOk(m, t, MoveTo(m, t, p, cache, c))
  {
    if p.GetQtid? || p.GetCache? {
      CacheMove(m, t, p, cache, c);
    } else if p.GetHead? || p.GetWalk? {
      ReaderMoves(m, t, p, cache, c);
    } else if p.RemLock? || p.RemWalk? {
      RemoverMoves(m, t, p, cache, c);
    } else {
      hide MemOk, Private, OnWay, Seen;
    }
  }

  // ---------- what readers and removers get ----------

  /** The table before any thread has run. */
  ghost predicate Initial(s: State) {
    && s.m.unused == 1 && s.m.head == map[] && s.m.next == map[] && s.m.owner == map[] && s.m.qtid == map[]
    && s.m.mine == map[] && s.m.rank == map[] && s.m.live == {} && s.m.last == map[] && s.m.clock == 1
    && s.m.quick == map[] && s.lock == 0 && s.pc == map[]
  }

  lemma InitialInv(s: State)
    requires Initial(s)
    ensures Inv(s)
  {
  }

  /** Any interleaving of the steps of all threads. */
  ghost predicate IsRun(states: seq<State>, who: seq<Thread>, choices: seq<Choice>) {
    && |who| == |choices| && |states| == |who| + 1 && Initial(states[0])
    && forall i :: 0 <= i < |who| ==> Enabled(states[i], who[i], choices[i]) && states[i + 1] == Next(states[i], who[i], choices[i])
  }

  lemma {:induction false} RunInv(states: seq<State>, who: seq<Thread>, choices: seq<Choice>, n: nat)
    requires IsRun(states, who, choices) && n < |states|
    ensures Inv(states[n])
  {
    if n == 0 {
      InitialInv(states[0]);
    } else {
      RunInv(states, who, choices, n - 1);
      StepInv(states[n - 1], who[n - 1], choices[n - 1]);
    }
  }

  /**
  Whenever a call of getspecific is about to return, it has found the value its thread has set, or NULL if
  that has set none, or has removed it.
   */
  lemma OwnValueFound(states: seq<State>, who: seq<Thread>, choices: seq<Choice>, n: nat, t: Thread)
    requires IsRun(states, who, choices) && n < |states| && PcOf(states[n], t).Got?
    ensures PcOf(states[n], t) == if t in states[n].m.mine then Got(true, Get(states[n].m.given, t)) else Got(false, 0)
  {
    RunInv(states, who, choices, n);
    Threads(states[n], t, t);
  }

  /**
   * What a call of getspecific has found the slow way it leaves in the cache: the next call of the thread with the same
   * quick id finds it there at once, if no other thread has used the slot meanwhile.
   */
  lemma NextGetHits(s: State, t: Thread, c: Choice)
    requires Inv(s) && Enabled(s, t, c) && PcOf(s, t).GetCache?
    ensures var q, slot := PcOf(s, t).q, PcOf(s, t).slot;
      var done := Next(Next(s, t, c), t, c);
      && done.m == s.m && Enabled(done, t, ToGet(q, slot))
      && PcOf(Next(Next(done, t, ToGet(q, slot)), t, c), t) == Got(true, Get(s.m.given, t))
  {
    Threads(s, t, t);
    MineHolds(s.m, t);
    hide MemOk, Inv;
  }

  lemma LinkingKeeps(m: Mem, t: Thread, e: Ent)
    ensures Fill(m, t, e).given == m.given && Publish(m, t, e).given == m.given
    ensures Fill(m, t, e).mine == m.mine && Publish(m, t, e).mine == m.mine[t := e]
  {
  }

  lemma UnlinkKeeps(m: Mem, t: Thread, link: Link, e: Ent, q: nat)
    ensures SetQtid(m, e, q).given == m.given && Unlink(m, t, link, e).given == m.given
    ensures SetQtid(m, e, q).mine == m.mine && Unlink(m, t, link, e).mine == m.mine - {t}
  {
  }

  lemma TableKeeps(m: Mem, t: Thread, p: Pc, c: Choice)
    ensures var w := After(m, t, p, c).0;
      && w.given == (if p.Idle? && c.ToSet? then m.given[t := c.v] else m.given)
      && w.mine == (if p.SetPublish? then m.mine[t := p.e] else if p.RemUnlink? then m.mine - {t} else m.mine)
  {
    hide Fill, Publish, SetQtid, Unlink;
    match p
    case SetFill(e) => LinkingKeeps(m, t, e);
    case SetPublish(e) => LinkingKeeps(m, t, e);
    case GetStore(q, _, e) => UnlinkKeeps(m, t, HeadLink, e, q);
    case RemWalk(link, e) => UnlinkKeeps(m, t, link, e, 0);
    case RemUnlink(link, e) => UnlinkKeeps(m, t, link, e, 0);
    case _ =>
  }

  /**
  What a thread has set changes only by its own calls: setspecific gives the value and enters the thread when
  the entry is linked, and remove_specific takes it out when the entry is unlinked.
   */
  lemma GivenStays(s: State, t: Thread, c: Choice)
    requires Inv(s) && Enabled(s, t, c)
    ensures var w, p := Next(s, t, c).m, PcOf(s, t);
      && w.given == (if p.Idle? && c.ToSet? then s.m.given[t := c.v] else s.m.given)
      && w.mine == (if p.SetPublish? then s.m.mine[t := p.e] else if p.RemUnlink? then s.m.mine - {t} else s.m.mine)
  {
    Threads(s, t, t);
    if ChangesTable(s.m, t, PcOf(s, t), c) { TableIs(s, t, c); } else { MoveIs(s, t, c); }
    TableKeeps(s.m, t, PcOf(s, t), c);
    hide Next, After, MoveTo, Inv;
  }

  /** No walk goes on forever: it leads to ever older entries. */
  lemma WalksEnd(s: State, t: Thread, c: Choice)
    requires Inv(s) && Enabled(s, t, c) && (PcOf(s, t).GetWalk? || PcOf(s, t).RemWalk?)
    ensures var p, q := PcOf(s, t), PcOf(Next(s, t, c), t);
      (q.GetWalk? || q.RemWalk?) && q.e != 0 ==> p.e in s.m.rank && q.e in s.m.rank && s.m.rank[q.e] < s.m.rank[p.e]
  {
    Threads(s, t, t);
    var p := PcOf(s, t);
    if p.RemWalk? && p.e != 0 { RemoverFinds(s.m, t, p.link, p.e); }
    Facts(s.m, p.e, 0);
    hide MemOk, Inv;
  }

  /** remove_specific uses a null entry exactly if its thread has set no value that it has not removed yet. */
  lemma RemoveCrashesIff(s: State, t: Thread, c: Choice)
    requires Inv(s) && Enabled(s, t, c) && PcOf(s, t).RemWalk?
    ensures PcOf(s, t).e == 0 <==> PcOf(Next(s, t, c), t).Crashed?
    ensures PcOf(s, t).e == 0 ==> t !in s.m.mine
    ensures t !in s.m.mine ==> PcOf(Next(s, t, c), t).Crashed? || PcOf(Next(s, t, c), t).RemWalk?
  {
    Threads(s, t, t);
    var p := PcOf(s, t);
    if p.e != 0 { RemoverFinds(s.m, t, p.link, p.e); }
    hide MemOk, Inv;
  }

  function Empty(): Mem {
    Mem((t: Thread) => t, map[], map[], map[], map[], map[], map[], 1, map[], map[], map[], map[], {}, map[], map[], 1)
  }

  /** A thread that calls remove_specific before it has set a value. */
  function CrashStates(): seq<State> {
    var m := Empty();
    [State(m, map[], 0, map[]), State(m, map[], 0, map[1 := RemLock]), State(m, map[], 1, map[1 := RemWalk(HeadLink, 0)]),
     State(m, map[], 1, map[1 := Crashed])]
  }

  lemma RemoveTooEarly()
    ensures IsRun(CrashStates(), [1, 1, 1], [ToRemove, ToRemove, ToRemove]) && PcOf(CrashStates()[3], 1) == Crashed
  {
    var ss := CrashStates();
    assert ss[1].pc == ss[0].pc[1 := RemLock] && ss[2].pc == ss[1].pc[1 := RemWalk(HeadLink, 0)] && ss[3].pc == ss[2].pc[1 := Crashed];
  }
}
