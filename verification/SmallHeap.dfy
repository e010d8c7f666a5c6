/**
Allocation of small objects from the free lists, and freeing (libs/gc/malloc.c:103-134, 466-513;
libs/gc/mallocx.c:371-416; libs/gc/new_hblk.c:176-196).  Whatever the order of the calls, and
whatever clients write to their objects, every object slot of every block is either held by the
client or on the free list of its kind and size, and never both.
 */
module SmallHeap {
  import opened Arithmetic
  import opened SmallObjects

  /** The object kind and the object size of a block. */
  datatype Key = Key(kind: nat, sz: nat)

  datatype State = State(
    m: Words,
    heads: map<Key, Addr>,        // ok_freelist
    blocks: map<Addr, Key>,       // the blocks of small objects, from their headers
    lists: map<Key, seq<Addr>>,   // the objects on the free lists
    client: set<Addr>,            // the objects that clients hold
    inits: set<nat>)              // the kinds with ok_init: their objects are cleared

  function Head(s: State, k: Key): Addr { if k in s.heads then s.heads[k] else 0 }

  function List(s: State, k: Key): seq<Addr> { if k in s.lists then s.lists[k] else [] }

  function BlockOf(a: Addr): Addr {
    ModAtMost(a, BW);
    a - a % BW
  }

  lemma ModAtMost(a: nat, b: nat)
    requires 0 < b
    ensures 0 <= a % b <= a
  {
    var q := a / b;
    assert a == q * b + a % b;
    if q < 0 { MulMono(q, -1, b); } else { MulMono(0, q, b); }
  }

  /** An object may start at a. */
  predicate IsSlot(s: State, a: Addr) {
    BlockOf(a) in s.blocks && StartsAt(a - BlockOf(a), s.blocks[BlockOf(a)].sz)
  }

  function KeyOf(s: State, a: Addr): Key { if BlockOf(a) in s.blocks then s.blocks[BlockOf(a)] else Key(0, 0) }

  /** The word w belongs to the object at a. */
  predicate WordOf(s: State, a: Addr, w: Addr) { IsSlot(s, a) && a <= w < a + KeyOf(s, a).sz }

  predicate BlockOk(s: State, h: Addr) {
    h in s.blocks ==> 0 < h && h % BW == 0 && h + BW <= |s.m| && 0 < s.blocks[h].sz <= BW
  }

  /** What the link of the object i of a free list is. */
  function Link(l: seq<Addr>, i: nat): Addr { if i + 1 < |l| then l[i + 1] else 0 }

  /** The object i of a free list belongs there, is linked to the next, and is cleared if it has to be. */
  predicate FreeOk(s: State, k: Key, i: nat) {
    i < |List(s, k)| ==>
      var a := List(s, k)[i];
      && IsSlot(s, a) && KeyOf(s, a) == k && a !in s.client && a < |s.m| && s.m[a] == Link(List(s, k), i)
  }

  predicate ClearOk(s: State, k: Key, i: nat, w: Addr) {
    i < |List(s, k)| && k.kind in s.inits && List(s, k)[i] < w < List(s, k)[i] + k.sz && w < |s.m| ==> s.m[w] == 0
  }

  predicate OnceOk(s: State, k: Key, i: nat, j: nat) { i < j < |List(s, k)| ==> List(s, k)[i] != List(s, k)[j] }

  predicate HeadOk(s: State, k: Key) { Head(s, k) == if List(s, k) == [] then 0 else List(s, k)[0] }

  predicate HeldOk(s: State, a: Addr) { a in s.client ==> IsSlot(s, a) }

  /** The slot a is not lost. */
  predicate KeptOk(s: State, a: Addr) { IsSlot(s, a) ==> a in s.client || a in List(s, KeyOf(s, a)) }

  ghost predicate Inv(s: State) {
    && (forall h {:trigger BlockOk(s, h)} :: BlockOk(s, h))
    && (forall k, i {:trigger FreeOk(s, k, i)} :: FreeOk(s, k, i))
    && (forall k, i, w {:trigger ClearOk(s, k, i, w)} :: ClearOk(s, k, i, w))
    && (forall k, i, j {:trigger OnceOk(s, k, i, j)} :: OnceOk(s, k, i, j))
    && (forall k {:trigger HeadOk(s, k)} :: HeadOk(s, k))
    && (forall a {:trigger HeldOk(s, a)} :: HeldOk(s, a))
    && (forall a {:trigger KeptOk(s, a)} :: KeptOk(s, a))
  }

  lemma Facts(s: State, k: Key, i: nat, j: nat, a: Addr)
    requires Inv(s)
    ensures FreeOk(s, k, i) && ClearOk(s, k, i, a) && OnceOk(s, k, i, j) && OnceOk(s, k, j, i)
    ensures HeadOk(s, k) && HeldOk(s, a) && KeptOk(s, a) && BlockOk(s, a) && BlockOk(s, BlockOf(a))
  {
  }

  lemma InBlock(h: Addr, w: Addr)
    requires h % BW == 0 && h <= w < h + BW
    ensures BlockOf(w) == h
  {
    assert h == h / BW * BW;
    DivModUnique(w, BW, h / BW, w - h);
    assert w % BW == w - h;
  }

  lemma BlockOfAddr(a: Addr)
    ensures BlockOf(a) <= a < BlockOf(a) + BW && BlockOf(a) % BW == 0
  {
    var q := a / BW;
    assert a == q * BW + a % BW;
    DivModUnique(q * BW, BW, q, 0);
  }

  lemma SameMultiple(sz: nat, x: nat, y: nat, d: nat)
    requires 0 < sz && x % sz == 0 && y % sz == 0 && x <= d < x + sz && y <= d < y + sz
    ensures x == y
  {
    DivModUnique(d, sz, x / sz, d - x);
    DivModUnique(d, sz, y / sz, d - y);
  }

  /** No word belongs to two objects, and all words of an object are in its block. */
  lemma WordsApart(s: State, a: Addr, c: Addr, w: Addr)
    requires WordOf(s, a, w) && WordOf(s, c, w)
    ensures a == c && BlockOf(w) == BlockOf(a)
  {
    BlockOfAddr(a);
    BlockOfAddr(c);
    InBlock(BlockOf(a), w);
    InBlock(BlockOf(c), w);
    var h := BlockOf(a);
    SameMultiple(KeyOf(s, a).sz, a - h, c - h, w - h);
  }

  lemma SlotInMemory(s: State, a: Addr)
    requires Inv(s) && IsSlot(s, a)
    ensures a + KeyOf(s, a).sz <= |s.m| && WordOf(s, a, a) && 0 < a && 0 < KeyOf(s, a).sz <= BW
    ensures a + KeyOf(s, a).sz <= BlockOf(a) + BW
  {
    Facts(s, KeyOf(s, a), 0, 0, a);
    BlockOfAddr(a);
  }

  /** Objects that the client holds share no word with each other or with free objects. */
  lemma Apart(s: State, a: Addr, c: Addr, w: Addr)
    requires Inv(s) && a in s.client && WordOf(s, a, w) && WordOf(s, c, w)
    ensures c == a && forall k :: c !in List(s, k)
  {
    WordsApart(s, a, c, w);
    forall k ensures c !in List(s, k) {
      if c in List(s, k) {
        var i :| 0 <= i < |List(s, k)| && List(s, k)[i] == c;
        Facts(s, k, i, i, c);
      }
    }
  }

  // ---------- writes by the client ----------

  /** The client writes to an object it holds. */
  function Write(s: State, w: Addr, v: nat): State
    requires w < |s.m|
  {
    s.(m := s.m[w := v])
  }

  lemma WriteFree(s: State, a: Addr, w: Addr, v: nat, k: Key, i: nat, x: Addr)
    requires Inv(s) && a in s.client && WordOf(s, a, w) && w < |s.m|
    ensures FreeOk(Write(s, w, v), k, i) && ClearOk(Write(s, w, v), k, i, x)
  {
    Facts(s, k, i, i, x);
    if i < |List(s, k)| {
      var c := List(s, k)[i];
      SlotInMemory(s, c);
      if WordOf(s, c, w) { WordsApart(s, a, c, w); }
    }
  }

  lemma WriteOk(s: State, a: Addr, w: Addr, v: nat)
    requires Inv(s) && a in s.client && WordOf(s, a, w)
    ensures w < |s.m| && Inv(Write(s, w, v))
  {
    SlotInMemory(s, a);
    var t := Write(s, w, v);
    hide FreeOk, ClearOk, WordOf;
    forall k, i ensures FreeOk(t, k, i) { WriteFree(s, a, w, v, k, i, 0); }
    forall k, i, x ensures ClearOk(t, k, i, x) { WriteFree(s, a, w, v, k, i, x); }
    forall k, i, j ensures OnceOk(t, k, i, j) { Facts(s, k, i, j, 0); }
    forall k ensures HeadOk(t, k) { Facts(s, k, 0, 0, 0); }
    forall x ensures HeldOk(t, x) && KeptOk(t, x) && BlockOk(t, x) { Facts(s, Key(0, 0), 0, 0, x); }
  }

  // ---------- taking objects off a free list ----------

  function Elements(l: seq<Addr>): set<Addr> { set a | a in l }

  /** The first n objects of a list go to the client; their links stay, but for the last. */
  function Take(s: State, k: Key, n: nat): State
    requires 0 < n <= |List(s, k)| && List(s, k)[n - 1] < |s.m|
  {
    var l := List(s, k);
    s.(m := s.m[l[n - 1] := 0], heads := s.heads[k := Link(l, n - 1)], lists := s.lists[k := l[n..]], client := s.client + Elements(l[..n]))
  }

  lemma TakeSame(s: State, k: Key, n: nat)
    requires 0 < n <= |List(s, k)| && List(s, k)[n - 1] < |s.m|
    ensures var t := Take(s, k, n);
      && (forall a :: IsSlot(t, a) == IsSlot(s, a) && KeyOf(t, a) == KeyOf(s, a))
      && (forall q :: List(t, q) == if q == k then List(s, k)[n..] else List(s, q))
  {
  }

  lemma TakeFree(s: State, k: Key, n: nat, q: Key, i: nat, w: Addr)
    requires Inv(s) && 0 < n <= |List(s, k)| && List(s, k)[n - 1] < |s.m|
    ensures FreeOk(Take(s, k, n), q, i) && ClearOk(Take(s, k, n), q, i, w)
  {
    var t, l := Take(s, k, n), List(s, k);
    TakeSame(s, k, n);
    var j := if q == k then n + i else i;
    Facts(s, q, j, n - 1, w);
    Facts(s, k, n - 1, 0, w);
    if j < |List(s, q)| {
      var a := List(s, q)[j];
      assert List(t, q)[i] == a;
      assert a != l[n - 1];
      SlotInMemory(s, a);
      SlotInMemory(s, l[n - 1]);
      if WordOf(s, a, l[n - 1]) { WordsApart(s, a, l[n - 1], l[n - 1]); }
      if a in Elements(l[..n]) {
        var g :| 0 <= g < n && l[g] == a;
        Facts(s, k, g, j, w);
      }
    }
  }

  lemma TakeRest(s: State, k: Key, n: nat, q: Key, i: nat, j: nat, a: Addr)
    requires Inv(s) && 0 < n <= |List(s, k)| && List(s, k)[n - 1] < |s.m|
    ensures var t := Take(s, k, n); OnceOk(t, q, i, j) && HeadOk(t, q) && HeldOk(t, a) && KeptOk(t, a) && BlockOk(t, a)
  {
    var t, l := Take(s, k, n), List(s, k);
    TakeSame(s, k, n);
    Facts(s, q, if q == k then n + i else i, if q == k then n + j else j, a);
    if a in l {
      var g :| 0 <= g < |l| && l[g] == a;
      Facts(s, k, g, 0, a);
      if n <= g { assert l[n..][g - n] == a; } else { assert l[..n][g] == a; }
    }
  }

  lemma TakeOk(s: State, k: Key, n: nat)
    requires Inv(s) && 0 < n <= |List(s, k)|
    ensures List(s, k)[n - 1] < |s.m| && Inv(Take(s, k, n))
  {
    Facts(s, k, n - 1, 0, 0);
    var t := Take(s, k, n);
    hide FreeOk, ClearOk, OnceOk, HeadOk, HeldOk, KeptOk, BlockOk, Take;
    forall q, i ensures FreeOk(t, q, i) { TakeFree(s, k, n, q, i, 0); }
    forall q, i, w ensures ClearOk(t, q, i, w) { TakeFree(s, k, n, q, i, w); }
    forall q, i, j ensures OnceOk(t, q, i, j) { TakeRest(s, k, n, q, i, j, 0); }
    forall q ensures HeadOk(t, q) { TakeRest(s, k, n, q, 0, 0, 0); }
    forall a ensures HeldOk(t, a) && KeptOk(t, a) && BlockOk(t, a) { TakeRest(s, k, n, k, 0, 0, a); }
  }

  /** An object that is allocated is new to the client, lies in memory, and is clear if its kind is. */
  lemma Allocated(s: State, k: Key)
    requires Inv(s) && List(s, k) != []
    ensures var a := List(s, k)[0];
      && a !in s.client && IsSlot(s, a) && KeyOf(s, a) == k && 0 < a && a + k.sz <= |s.m|
      && (k.kind in s.inits ==> forall w :: a <= w < a + k.sz ==> Take(s, k, 1).m[w] == 0)
  {
    var a := List(s, k)[0];
    Facts(s, k, 0, 0, a);
    SlotInMemory(s, a);
    if k.kind in s.inits {
      forall w | a <= w < a + k.sz ensures Take(s, k, 1).m[w] == 0 { Facts(s, k, 0, 0, w); }
    }
  }

  // ---------- freeing ----------

  /** GC_free clears all but the first word of an object whose kind is cleared. */
  function Zeroed(m: Words, a: Addr, n: nat): Words { seq(|m|, w requires 0 <= w < |m| => if a < w < a + n then 0 else m[w]) }

  function Give(s: State, a: Addr): State
    requires a < |s.m|
  {
    var k := KeyOf(s, a);
    var m := if k.kind in s.inits then Zeroed(s.m, a, k.sz) else s.m;
    s.(m := m[a := Head(s, k)], heads := s.heads[k := a], lists := s.lists[k := [a] + List(s, k)], client := s.client - {a})
  }

  lemma GiveSame(s: State, a: Addr)
    requires a < |s.m|
    ensures var t, k := Give(s, a), KeyOf(s, a);
      && (forall c: Addr :: IsSlot(t, c) == IsSlot(s, c) && KeyOf(t, c) == KeyOf(s, c))
      && (forall q :: List(t, q) == if q == k then [a] + List(s, k) else List(s, q))
      && |t.m| == |s.m| && t.m[a] == Head(s, k)
      && (forall w :: 0 <= w < |s.m| && !(a <= w < a + k.sz) && w != a ==> t.m[w] == s.m[w])
      && (k.kind in s.inits ==> forall w :: a < w < a + k.sz && w < |s.m| ==> t.m[w] == 0)
  {
  }

  /** The objects that were on the lists before. */
  lemma GiveOther(s: State, a: Addr, q: Key, i: nat, w: Addr)
    requires Inv(s) && a in s.client && a < |s.m| && i < |List(Give(s, a), q)| && !(q == KeyOf(s, a) && i == 0)
    ensures FreeOk(Give(s, a), q, i) && ClearOk(Give(s, a), q, i, w)
  {
    var t, k := Give(s, a), KeyOf(s, a);
    GiveSame(s, a);
    Facts(s, k, 0, 0, a);
    SlotInMemory(s, a);
    hide Give, Inv;
    var j := if q == k then i - 1 else i;
    Facts(s, q, j, j, w);
    var c := List(s, q)[j];
    assert List(t, q)[i] == c;
    SlotInMemory(s, c);
    if WordOf(s, a, c) { WordsApart(s, a, c, c); }
    if WordOf(s, c, w) && WordOf(s, a, w) { WordsApart(s, a, c, w); }
  }

  lemma GiveFree(s: State, a: Addr, q: Key, i: nat, w: Addr)
    requires Inv(s) && a in s.client && a < |s.m|
    ensures FreeOk(Give(s, a), q, i) && ClearOk(Give(s, a), q, i, w)
  {
    var t, k := Give(s, a), KeyOf(s, a);
    GiveSame(s, a);
    Facts(s, k, 0, 0, a);
    SlotInMemory(s, a);
    hide Give;
    if i < |List(t, q)| {
      if q == k && i == 0 {
        assert List(t, q)[i] == a;
      } else {
        GiveOther(s, a, q, i, w);
      }
    }
  }

  lemma GiveRest(s: State, a: Addr, q: Key, i: nat, j: nat, c: Addr)
    requires Inv(s) && a in s.client && a < |s.m|
    ensures var t := Give(s, a); OnceOk(t, q, i, j) && HeadOk(t, q) && HeldOk(t, c) && KeptOk(t, c) && BlockOk(t, c)
  {
    var t, k := Give(s, a), KeyOf(s, a);
    GiveSame(s, a);
    Facts(s, q, if q == k && 0 < i then i - 1 else i, if q == k && 0 < j then j - 1 else j, c);
    Facts(s, k, if 0 < j then j - 1 else 0, 0, a);
    if c in List(s, k) { assert c in [a] + List(s, k); }
    assert a in [a] + List(s, k);
  }

  lemma GiveOk(s: State, a: Addr)
    requires Inv(s) && a in s.client
    ensures a < |s.m| && Inv(Give(s, a))
  {
    Facts(s, KeyOf(s, a), 0, 0, a);
    SlotInMemory(s, a);
    var t := Give(s, a);
    hide FreeOk, ClearOk, OnceOk, HeadOk, HeldOk, KeptOk, BlockOk, Give;
    forall q, i ensures FreeOk(t, q, i) { GiveFree(s, a, q, i, 0); }
    forall q, i, w ensures ClearOk(t, q, i, w) { GiveFree(s, a, q, i, w); }
    forall q, i, j ensures OnceOk(t, q, i, j) { GiveRest(s, a, q, i, j, 0); }
    forall q ensures HeadOk(t, q) { GiveRest(s, a, q, 0, 0, 0); }
    forall c ensures HeldOk(t, c) && KeptOk(t, c) && BlockOk(t, c) { GiveRest(s, a, KeyOf(s, a), 0, 0, c); }
  }

  // ---------- new blocks ----------

  /** How many objects a block holds. */
  function Count(sz: nat): nat { if 0 < sz then BW / sz else 0 }

  function Entry(h: Addr, sz: nat, i: int): Addr { if i < Count(sz) then h + (Count(sz) - 1 - i) * sz else 0 }

  /** The free list that GC_build_fl makes of a block, from the last object to the first. */
  function BlockList(h: Addr, sz: nat): seq<Addr> { seq(Count(sz), i requires 0 <= i < Count(sz) => Entry(h, sz, i)) }

  lemma EntryOk(h: Addr, sz: nat, i: nat)
    requires 0 < sz <= BW && h % BW == 0 && i < Count(sz)
    ensures var a := Entry(h, sz, i);
      h <= a && a + sz <= h + BW && StartsAt(a - h, sz) && BlockOf(a) == h && (a == h <==> i == Count(sz) - 1)
      && (i + 1 < Count(sz) ==> Entry(h, sz, i + 1) == a - sz)
      && (i == 0 ==> a == LastObject(h, sz))
  {
    var n := Count(sz);
    var j := n - 1 - i;
    LastFits(sz);
    MulMono(0, j, sz);
    MulMono(j + 1, n, sz);
    assert (j + 1) * sz == j * sz + sz;
    DivModUnique(j * sz, sz, j, 0);
    if 0 < j { MulMono(1, j, sz); }
    assert (j - 1) * sz == j * sz - sz;
    InBlock(h, Entry(h, sz, i));
  }

  lemma EntriesDiffer(h: Addr, sz: nat, i: nat, j: nat)
    requires 0 < sz && i < j < Count(sz)
    ensures Entry(h, sz, i) != Entry(h, sz, j)
  {
    MulMono(Count(sz) - j, Count(sz) - 1 - i, sz);
    assert (Count(sz) - j) * sz == (Count(sz) - 1 - j) * sz + sz;
  }

  /** Every object of the block is an entry. */
  lemma EntryOf(h: Addr, sz: nat, a: Addr)
    requires 0 < sz <= BW && h <= a && StartsAt(a - h, sz)
    ensures a in BlockList(h, sz)
  {
    var d := (a - h) / sz;
    var n := Count(sz);
    assert a - h == d * sz;
    LastFits(sz);
    if n <= d { MulMono(n, d, sz); }
    assert BlockList(h, sz)[n - 1 - d] == a;
  }

  /** A block that no small objects are in has been made a free list, in front of that of its kind and size or for the client. */
  ghost predicate NewBlock(s: State, t: Words, h: Addr, k: Key, clear: bool, keep: bool) {
    && h !in s.blocks && 0 < h && h % BW == 0 && h + BW <= |s.m| && 0 < k.sz <= BW
    && Built(s.m, t, h, k.sz, clear, if keep then 0 else Head(s, k)) && (k.kind in s.inits ==> clear)
  }

  function Listed(s: State, t: Words, h: Addr, k: Key): State
    requires 0 < k.sz <= BW
  {
    s.(m := t, blocks := s.blocks[h := k], heads := s.heads[k := LastObject(h, k.sz)], lists := s.lists[k := BlockList(h, k.sz) + List(s, k)])
  }

  function Held(s: State, t: Words, h: Addr, k: Key): State {
    s.(m := t, blocks := s.blocks[h := k], client := s.client + Elements(BlockList(h, k.sz)))
  }

  /** The objects of the new block go to the free list, or to the client if keep. */
  function Added(s: State, t: Words, h: Addr, k: Key, keep: bool): State
    requires 0 < k.sz <= BW
  {
    if keep then Held(s, t, h, k) else Listed(s, t, h, k)
  }

  lemma AddedSame(s: State, t: Words, h: Addr, k: Key, clear: bool, keep: bool)
    requires NewBlock(s, t, h, k, clear, keep)
    ensures var u := Added(s, t, h, k, keep);
      && u.m == t && |t| == |s.m|
      && (forall c: Addr :: IsSlot(u, c) == if BlockOf(c) == h then StartsAt(c - h, k.sz) else IsSlot(s, c))
      && (forall c: Addr :: KeyOf(u, c) == if BlockOf(c) == h then k else KeyOf(s, c))
      && (forall q :: List(u, q) == if q == k && !keep then BlockList(h, k.sz) + List(s, k) else List(s, q))
      && (forall w :: 0 <= w < |s.m| && !(h <= w < h + BW) ==> t[w] == s.m[w])
  {
    hide Cell;
  }

  /** Words of objects in other blocks are not in the new block. */
  lemma OldWords(s: State, h: Addr, c: Addr, w: Addr)
    requires h !in s.blocks && h % BW == 0 && WordOf(s, c, w)
    ensures !(h <= w < h + BW) && BlockOf(c) != h
  {
    WordsApart(s, c, c, w);
    if h <= w < h + BW { InBlock(h, w); }
  }

  lemma AddedFree(s: State, t: Words, h: Addr, k: Key, clear: bool, keep: bool, q: Key, i: nat, w: Addr)
    requires Inv(s) && NewBlock(s, t, h, k, clear, keep)
    ensures FreeOk(Added(s, t, h, k, keep), q, i) && ClearOk(Added(s, t, h, k, keep), q, i, w)
  {
    var u, n := Added(s, t, h, k, keep), if q == k && !keep then Count(k.sz) else 0;
    AddedSame(s, t, h, k, clear, keep);
    if i < |List(u, q)| {
      if i < n {
        NewFree(s, t, h, k, clear, i, w);
      } else {
        OldFree(s, t, h, k, clear, keep, q, i, w);
      }
    }
  }

  /** The objects of the new block on the free list. */
  lemma NewFree(s: State, t: Words, h: Addr, k: Key, clear: bool, i: nat, w: Addr)
    requires Inv(s) && NewBlock(s, t, h, k, clear, false) && i < Count(k.sz)
    ensures FreeOk(Added(s, t, h, k, false), k, i) && ClearOk(Added(s, t, h, k, false), k, i, w)
  {
    var u := Added(s, t, h, k, false);
    AddedSame(s, t, h, k, clear, false);
    var a := Entry(h, k.sz, i);
    EntryOk(h, k.sz, i);
    Facts(s, k, 0, 0, a);
    NewCells(s, t, h, k, clear, false, i, w);
    hide Built, Added, Entry, Cell;
    assert List(u, k)[i] == a;
    var j := i + 1;
    if j < |List(u, k)| { assert List(u, k)[j] == if j < Count(k.sz) then Entry(h, k.sz, j) else List(s, k)[j - Count(k.sz)]; }
  }

  /** What the words of an object of the new block hold. */
  lemma NewCells(s: State, t: Words, h: Addr, k: Key, clear: bool, keep: bool, i: nat, w: Addr)
    requires NewBlock(s, t, h, k, clear, keep) && i < Count(k.sz)
    ensures var a := Entry(h, k.sz, i);
      && a < |t| == |s.m| && t[a] == (if i + 1 < Count(k.sz) then Entry(h, k.sz, i + 1) else if keep then 0 else Head(s, k))
      && (clear && a < w < a + k.sz ==> w < |t| && t[w] == 0)
  {
    var a := Entry(h, k.sz, i);
    EntryOk(h, k.sz, i);
    assert i + 1 >= Count(k.sz) ==> a == h;
    if a < w < a + k.sz { NextStart(a - h, w - a, k.sz); }
    hide Entry;
  }

  lemma OldFree(s: State, t: Words, h: Addr, k: Key, clear: bool, keep: bool, q: Key, i: nat, w: Addr)
    requires Inv(s) && NewBlock(s, t, h, k, clear, keep)
    requires (if q == k && !keep then Count(k.sz) else 0) <= i < |List(Added(s, t, h, k, keep), q)|
    ensures FreeOk(Added(s, t, h, k, keep), q, i) && ClearOk(Added(s, t, h, k, keep), q, i, w)
  {
    var u, n := Added(s, t, h, k, keep), if q == k && !keep then Count(k.sz) else 0;
    AddedSame(s, t, h, k, clear, keep);
    var c := List(s, q)[i - n];
    assert List(u, q)[i] == c;
    Facts(s, q, i - n, 0, w);
    SlotInMemory(s, c);
    OldWords(s, h, c, c);
    if WordOf(s, c, w) { OldWords(s, h, c, w); }
    if keep && c in Elements(BlockList(h, k.sz)) {
      var g :| 0 <= g < Count(k.sz) && Entry(h, k.sz, g) == c;
      EntryOk(h, k.sz, g);
    }
    hide Built, Entry, BlockList;
  }

  lemma AddedHead(s: State, t: Words, h: Addr, k: Key, clear: bool, keep: bool, q: Key)
    requires Inv(s) && NewBlock(s, t, h, k, clear, keep)
    ensures HeadOk(Added(s, t, h, k, keep), q)
  {
    AddedSame(s, t, h, k, clear, keep);
    Facts(s, q, 0, 0, 0);
    LastFits(k.sz);
    EntryOk(h, k.sz, 0);
    hide Built, Entry;
  }

  lemma AddedOnce(s: State, t: Words, h: Addr, k: Key, clear: bool, keep: bool, q: Key, i: nat, j: nat)
    requires Inv(s) && NewBlock(s, t, h, k, clear, keep)
    ensures OnceOk(Added(s, t, h, k, keep), q, i, j)
  {
    var u, n := Added(s, t, h, k, keep), if q == k && !keep then Count(k.sz) else 0;
    AddedSame(s, t, h, k, clear, keep);
    if i < j < |List(u, q)| {
      if j < n {
        EntriesDiffer(h, k.sz, i, j);
      } else if i < n {
        OldNotNew(s, h, k, i, j - n);
      } else {
        Facts(s, q, i - n, j - n, 0);
      }
    }
    hide Built, Entry, Added, StartsAt;
  }

  lemma OldNotNew(s: State, h: Addr, k: Key, i: nat, j: nat)
    requires Inv(s) && h !in s.blocks && h % BW == 0 && 0 < k.sz <= BW && i < Count(k.sz) && j < |List(s, k)|
    ensures Entry(h, k.sz, i) != List(s, k)[j]
  {
    EntryOk(h, k.sz, i);
    Facts(s, k, j, 0, 0);
    SlotInMemory(s, List(s, k)[j]);
    OldWords(s, h, List(s, k)[j], List(s, k)[j]);
  }

  lemma AddedRest(s: State, t: Words, h: Addr, k: Key, clear: bool, keep: bool, c: Addr)
    requires Inv(s) && NewBlock(s, t, h, k, clear, keep)
    ensures var u := Added(s, t, h, k, keep); HeldOk(u, c) && KeptOk(u, c) && BlockOk(u, c)
  {
    var u := Added(s, t, h, k, keep);
    AddedSame(s, t, h, k, clear, keep);
    Facts(s, k, 0, 0, c);
    if BlockOf(c) == h {
      BlockOfAddr(c);
      if StartsAt(c - h, k.sz) { EntryOf(h, k.sz, c); }
    }
    if c in BlockList(h, k.sz) {
      var g :| 0 <= g < Count(k.sz) && Entry(h, k.sz, g) == c;
      EntryOk(h, k.sz, g);
    }
    hide Built, Entry, BlockList;
  }

  /** A new block keeps the invariant. */
  lemma AddedOk(s: State, t: Words, h: Addr, k: Key, clear: bool, keep: bool)
    requires Inv(s) && NewBlock(s, t, h, k, clear, keep)
    ensures Inv(Added(s, t, h, k, keep))
  {
    var u := Added(s, t, h, k, keep);
    hide FreeOk, ClearOk, OnceOk, HeadOk, HeldOk, KeptOk, BlockOk, Added, NewBlock;
    forall q, i ensures FreeOk(u, q, i) { AddedFree(s, t, h, k, clear, keep, q, i, 0); }
    forall q, i, w ensures ClearOk(u, q, i, w) { AddedFree(s, t, h, k, clear, keep, q, i, w); }
    forall q, i, j ensures OnceOk(u, q, i, j) { AddedOnce(s, t, h, k, clear, keep, q, i, j); }
    forall q ensures HeadOk(u, q) { AddedHead(s, t, h, k, clear, keep, q); }
    forall c ensures HeldOk(u, c) && KeptOk(u, c) && BlockOk(u, c) { AddedRest(s, t, h, k, clear, keep, c); }
  }
}
