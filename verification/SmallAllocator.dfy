/** The operations on small objects, in place, against the state of SmallHeap. */
module SmallAllocator {
  import opened SmallObjects
  import opened SmallHeap

  /** The objects r are linked from head on. */
  ghost predicate Chain(m: Words, head: Addr, r: seq<Addr>) {
    && head == (if r == [] then 0 else r[0])
    && forall i :: 0 <= i < |r| ==> 0 < r[i] < |m| && m[r[i]] == Link(r, i)
  }

  lemma FreeEntry(s: State, k: Key, n: nat)
    requires Inv(s)
    ensures n < |List(s, k)| ==> 0 < List(s, k)[n] < |s.m| && s.m[List(s, k)[n]] == Link(List(s, k), n)
  {
    Facts(s, k, n, 0, 0);
    if n < |List(s, k)| { SlotInMemory(s, List(s, k)[n]); }
  }

  lemma TakeIs(s: State, k: Key, n: nat)
    requires 0 < n <= |List(s, k)| && List(s, k)[n - 1] < |s.m|
    ensures var l := List(s, k);
      Take(s, k, n) == s.(m := s.m[l[n - 1] := 0], heads := s.heads[k := Link(l, n - 1)],
                          lists := s.lists[k := l[n..]], client := s.client + Elements(l[..n]))
  {
  }

  /** The loop has come to the end of the list. */
  lemma WholeList(s: State, k: Key, n: nat)
    requires Inv(s) && 0 < |List(s, k)| && n <= |List(s, k)| && (n < |List(s, k)| ==> List(s, k)[n] == 0)
    ensures n == |List(s, k)| && List(s, k)[n - 1] < |s.m| && Inv(Take(s, k, n))
    ensures Take(s, k, n).m == s.m && Link(List(s, k), n - 1) == 0
  {
    FreeEntry(s, k, n);
    FreeEntry(s, k, n - 1);
    TakeOk(s, k, n);
    hide Inv;
  }

  /** The objects r, linked from op on, were not the client's before. */
  ghost predicate NewObjects(s: State, t: State, k: Key, op: Addr, r: seq<Addr>) {
    && Chain(t.m, op, r) && t.client == s.client + Elements(r) && Elements(r) !! s.client
    && (forall i :: 0 <= i < |r| ==> IsSlot(t, r[i]) && KeyOf(t, r[i]) == k)
    && (forall i, j :: 0 <= i < j < |r| ==> r[i] != r[j])
  }

  lemma Taken(s: State, k: Key, n: nat)
    requires Inv(s) && 0 < n <= |List(s, k)| && List(s, k)[n - 1] < |s.m|
    ensures NewObjects(s, Take(s, k, n), k, List(s, k)[0], List(s, k)[..n])
  {
    var l, t := List(s, k), Take(s, k, n);
    var r := l[..n];
    TakeSame(s, k, n);
    forall i, j | 0 <= i < n && 0 <= j < n && i != j ensures l[i] != l[j] { Facts(s, k, if i < j then i else j, if i < j then j else i, 0); }
    forall i | 0 <= i < n ensures 0 < r[i] < |t.m| && t.m[r[i]] == Link(r, i) && r[i] !in s.client && IsSlot(t, r[i]) && KeyOf(t, r[i]) == k {
      FreeEntry(s, k, i);
      Facts(s, k, i, 0, 0);
      assert i != n - 1 ==> l[i] != l[n - 1];
    }
    hide Inv, Take, IsSlot;
  }

  lemma Nothing(s: State, k: Key)
    ensures NewObjects(s, s, k, 0, [])
  {
  }

  lemma HeldEntry(s: State, t: Words, h: Addr, k: Key, clear: bool, i: nat)
    requires Inv(s) && NewBlock(s, t, h, k, clear, true) && i < |BlockList(h, k.sz)|
    ensures var r, u := BlockList(h, k.sz), Added(s, t, h, k, true);
      0 < r[i] < |t| && t[r[i]] == Link(r, i) && r[i] !in s.client && IsSlot(u, r[i]) && KeyOf(u, r[i]) == k
  {
    EntryOk(h, k.sz, i);
    NewCells(s, t, h, k, clear, true, i, 0);
    Facts(s, k, 0, 0, BlockList(h, k.sz)[i]);
  }

  lemma HeldNew(s: State, t: Words, h: Addr, k: Key, clear: bool)
    requires Inv(s) && NewBlock(s, t, h, k, clear, true)
    ensures NewObjects(s, Held(s, t, h, k), k, LastObject(h, k.sz), BlockList(h, k.sz))
  {
    var r, u := BlockList(h, k.sz), Added(s, t, h, k, true);
    AddedSame(s, t, h, k, clear, true);
    LastFits(k.sz);
    EntryOk(h, k.sz, 0);
    forall i | 0 <= i < |r| ensures 0 < r[i] < |t| && t[r[i]] == Link(r, i) && r[i] !in s.client && IsSlot(u, r[i]) && KeyOf(u, r[i]) == k {
      HeldEntry(s, t, h, k, clear, i);
    }
    forall i, j | 0 <= i < j < |r| ensures r[i] != r[j] { EntriesDiffer(h, k.sz, i, j); }
    hide Inv, Built, NewBlock, SmallHeap.Entry, IsSlot;
  }

  function Times(n: nat, w: nat): nat { n * w }

  lemma TimesNext(n: nat, w: nat)
    ensures Times(n + 1, w) == Times(n, w) + w && Times(0, w) == 0
  {
  }

  lemma TimesIs(n: nat, w: nat)
    ensures Times(n, w) == n * w && (n - 1) * w == n * w - w
  {
  }

  lemma WordsUsed(sz: nat)
    requires 0 < sz <= BW
    ensures BW - BW % sz == Count(sz) * sz
  {
  }

  lemma BlockHead(h: Addr, sz: nat)
    requires 0 < sz <= BW && 0 < h
    ensures 0 < LastObject(h, sz)
  {
    LastFits(sz);
  }

  /** The list that a new block makes of an empty one begins in that block. */
  lemma FirstOfBlock(s: State, h: Addr, k: Key, t: State)
    requires 0 < k.sz <= BW && h % BW == 0 && t == Listed(s, t.m, h, k) && List(s, k) == []
    ensures List(t, k) != [] && BlockOf(List(t, k)[0]) == h
  {
    LastFits(k.sz);
    EntryOk(h, k.sz, 0);
  }

  class Allocator {
    const heap: Heap
    const inits: set<nat>       // the kinds with ok_init
    const debugging: bool       // GC_debugging_started
    var heads: map<Key, Addr>   // ok_freelist
    var blocks: map<Addr, Key>  // what the headers say of the blocks of small objects
    var bytesAllocd: nat        // GC_bytes_allocd, in words
    var bytesFreed: nat         // GC_bytes_freed, in words
    ghost var lists: map<Key, seq<Addr>>
    ghost var client: set<Addr>

    ghost function Now(): State
      reads this, heap.mem
    {
      State(heap.mem[..], heads, blocks, lists, client, inits)
    }

    constructor (words: nat, inits: set<nat>, debugging: bool)
      ensures Inv(Now()) && client == {} && blocks == map[] && fresh(heap) && fresh(heap.mem)
      ensures this.inits == inits && this.debugging == debugging && bytesAllocd == bytesFreed == 0 && heap.mem.Length == words
    {
      heap := new Heap(words);
      this.inits, this.debugging := inits, debugging;
      heads, blocks, lists, client, bytesAllocd, bytesFreed := map[], map[], map[], {}, 0, 0;
    }

    /** GC_allochblk has found a block at h that is not in use for small objects; 0 if it has failed. */
    ghost predicate Usable(h: Addr, k: Key)
      reads this, heap.mem
    {
      0 < k.sz <= BW && (h != 0 ==> h !in blocks && h % BW == 0 && h + BW <= heap.mem.Length)
    }

    /** The state after NewHblk; t is the memory then. */
    ghost predicate WithBlock(s: State, h: Addr, k: Key, u: State) {
      if h == 0 then u == s
      else 0 < k.sz <= BW && NewBlock(s, u.m, h, k, k.kind in s.inits || debugging, false) && u == Listed(s, u.m, h, k)
    }

    /** GC_new_hblk. */
    method NewHblk(k: Key, h: Addr)
      requires Inv(Now()) && Usable(h, k)
      modifies this`heads, this`blocks, this`lists, heap.mem
      ensures Inv(Now()) && WithBlock(old(Now()), h, k, Now())
    {
      if h == 0 { return; }
      hide Inv, Built;
      ghost var s := Now();
      var list := if k in heads then heads[k] else 0;
      var clear := k.kind in inits || debugging;
      var head := heap.BuildFl(h, k.sz, clear, list);
      AddedOk(s, heap.mem[..], h, k, clear, false);
      heads, blocks, lists := heads[k := head], blocks[h := k], lists[k := BlockList(h, k.sz) + List(s, k)];
      assert Now() == Listed(s, heap.mem[..], h, k);
    }

    /** The head of a free list. */
    method FirstFree(k: Key) returns (op: Addr)
      requires Inv(Now())
      ensures op == Head(Now(), k) && (op == 0 <==> List(Now(), k) == []) && (op != 0 ==> op == List(Now(), k)[0] < heap.mem.Length)
    {
      op := if k in heads then heads[k] else 0;
      Facts(Now(), k, 0, 0, 0);
      if List(Now(), k) != [] { Allocated(Now(), k); }
    }

    /** The first object of a free list is taken off; it is clear if its kind is. */
    method TakeFirst(k: Key, op: Addr)
      requires Inv(Now()) && List(Now(), k) != [] && op == List(Now(), k)[0] < heap.mem.Length
      modifies this`heads, this`lists, this`client, heap.mem
      ensures Inv(Now()) && op < |old(Now()).m| && Now() == Take(old(Now()), k, 1)
      ensures op !in old(client) && client == old(client) + {op} && IsSlot(Now(), op) && KeyOf(Now(), op) == k && 0 < op
      ensures k.kind in inits ==> op + k.sz <= heap.mem.Length && forall w :: op <= w < op + k.sz ==> heap.mem[w] == 0
    {
      ghost var u := Now();
      Allocated(u, k);
      TakeOk(u, k, 1);
      TakeSame(u, k, 1);
      Facts(u, k, 0, 0, 0);
      hide Inv;
      heads := heads[k := heap.mem[op]];
      heap.mem[op] := 0;
      lists, client := lists[k := List(u, k)[1..]], client + {op};
      assert List(u, k)[..1] == [op] && Elements([op]) == {op};
      assert Now() == Take(u, k, 1);
    }

    /** The part of GC_generic_malloc_inner for small objects: h is the block that GC_allocobj finds if the list is empty. */
    method Malloc(k: Key, h: Addr) returns (op: Addr, ghost u: State)
      requires Inv(Now()) && Usable(h, k)
      modifies this, heap.mem
      ensures Inv(Now()) && Inv(u) && WithBlock(old(Now()), if Head(old(Now()), k) == 0 then h else 0, k, u)
      ensures bytesFreed == old(bytesFreed)
      ensures if List(old(Now()), k) != [] then op == List(old(Now()), k)[0] && op != 0 && blocks == old(blocks)
              else if h == 0 then op == 0 && blocks == old(blocks)
              else op != 0 && BlockOf(op) == h && blocks == old(blocks)[h := k]
      ensures op == 0 ==> List(u, k) == [] && Now() == u && bytesAllocd == old(bytesAllocd)
      ensures op != 0 ==> List(u, k) != [] && op == List(u, k)[0] < |u.m| && Now() == Take(u, k, 1) && bytesAllocd == old(bytesAllocd) + k.sz
      ensures op != 0 ==> op !in old(client) && client == old(client) + {op} && IsSlot(Now(), op) && KeyOf(Now(), op) == k
      ensures op != 0 && k.kind in inits ==> op + k.sz <= heap.mem.Length && forall w :: op <= w < op + k.sz ==> heap.mem[w] == 0
    {
      hide Inv, NewBlock, IsSlot, List, BlockList;
      op := FirstFree(k);
      if op == 0 {
        ghost var s := Now();
        NewHblk(k, h);
        if h != 0 { FirstOfBlock(s, h, k, Now()); }
        op := FirstFree(k);
      }
      u := Now();
      if op == 0 { return; }
      TakeFirst(k, op);
      bytesAllocd := bytesAllocd + k.sz;
    }

    /** The list is cut behind the object at p, its object number n, and its rest put back. */
    method CutAt(ghost s: State, k: Key, ghost n: nat, p: Addr)
      requires Inv(s) && 0 < n <= |List(s, k)| && p == List(s, k)[n - 1] < |s.m| && Now() == s.(heads := s.heads[k := 0])
      modifies this`heads, this`lists, this`client, heap.mem
      ensures Inv(Now()) && Now() == Take(s, k, n)
    {
      FreeEntry(s, k, n - 1);
      TakeOk(s, k, n);
      TakeIs(s, k, n);
      hide Inv, Take, List, Link;
      heads := heads[k := heap.mem[p]];
      heap.mem[p] := 0;
      lists, client := lists[k := List(s, k)[n..]], client + Elements(List(s, k)[..n]);
      assert heads == s.heads[k := Link(List(s, k), n - 1)];
    }

    /**
    A prefix of the free list, cut where it amounts to a block: the loop that counts, with the objects of the
    list by number.
     */
    method CutPrefix(k: Key) returns (op: Addr, ghost n: nat)
      requires Inv(Now()) && List(Now(), k) != [] && 0 < k.sz
      modifies this, heap.mem
      ensures 0 < n <= |List(old(Now()), k)| && op == List(old(Now()), k)[0] && List(old(Now()), k)[n - 1] < |old(Now()).m|
      ensures Inv(Now()) && Now() == Take(old(Now()), k, n)
      ensures (n - 1) * k.sz < BW && (n < |List(old(Now()), k)| ==> BW <= n * k.sz)
      ensures bytesAllocd == old(bytesAllocd) + n * k.sz && bytesFreed == old(bytesFreed)
    {
      ghost var s := Now();
      ghost var l := List(s, k);
      op := FirstFree(k);
      heads := heads[k := 0];
      n := 0;
      var p, count := op, 0;
      hide Inv, Take, List;
      TimesNext(0, k.sz);
      hide Times;
      while p != 0
        invariant n <= |l| && p == (if n < |l| then l[n] else 0) && count == Times(n, k.sz) && (0 < n ==> count < BW)
        invariant Now() == s.(heads := s.heads[k := 0]) && bytesAllocd == old(bytesAllocd) && bytesFreed == old(bytesFreed)
        decreases |l| - n
      {
        FreeEntry(s, k, n);
        TimesNext(n, k.sz);
        count, n := count + k.sz, n + 1;
        if count >= BW {
          TimesIs(n, k.sz);
          CutAt(s, k, n, p);
          bytesAllocd := bytesAllocd + count;
          return;
        }
        p := heap.mem[p];
      }
      WholeList(s, k, n);
      TimesIs(n, k.sz);
      bytesAllocd := bytesAllocd + count;
      lists, client := lists[k := l[n..]], client + Elements(l[..n]);
      TakeIs(s, k, n);
      assert heads == s.heads[k := Link(l, n - 1)];
    }

    /** A new block of which all objects go to the client. */
    method WholeBlock(k: Key, h: Addr) returns (op: Addr)
      requires Inv(Now()) && Usable(h, k) && h != 0
      modifies this, heap.mem
      ensures Inv(Now()) && NewObjects(old(Now()), Now(), k, op, BlockList(h, k.sz)) && op != 0
      ensures bytesFreed == old(bytesFreed) && bytesAllocd == old(bytesAllocd) + Count(k.sz) * k.sz
    {
      hide Inv, Built, NewObjects, BlockList, LastObject;
      ghost var s := Now();
      WordsUsed(k.sz);
      var clear := k.kind in inits || debugging;
      bytesAllocd := bytesAllocd + (BW - BW % k.sz);
      op := heap.BuildFl(h, k.sz, clear, 0);
      ghost var t := heap.mem[..];
      assert NewBlock(s, t, h, k, clear, true);
      hide NewBlock;
      AddedOk(s, t, h, k, clear, true);
      HeldNew(s, t, h, k, clear);
      BlockHead(h, k.sz);
      blocks, client := blocks[h := k], client + Elements(BlockList(h, k.sz));
      assert Now() == Held(s, t, h, k);
    }

    /** GC_generic_malloc_many without parallel marking: a prefix of the free list, or all of a new block. */
    method MallocMany(k: Key, h: Addr) returns (op: Addr, ghost r: seq<Addr>)
      requires Inv(Now()) && Usable(h, k)
      modifies this, heap.mem
      ensures Inv(Now()) && bytesFreed == old(bytesFreed) && bytesAllocd == old(bytesAllocd) + |r| * k.sz
      ensures NewObjects(old(Now()), Now(), k, op, r)
      ensures op == 0 <==> List(old(Now()), k) == [] && h == 0
      ensures List(old(Now()), k) == [] && h != 0 ==> r == BlockList(h, k.sz)
      ensures List(old(Now()), k) != [] ==> r <= List(old(Now()), k) && (|r| - 1) * k.sz < BW
      ensures List(old(Now()), k) != [] && r != List(old(Now()), k) ==> BW <= |r| * k.sz
    {
      r := [];
      hide Inv, Take, NewObjects, List;
      var first := FirstFree(k);
      if first != 0 {
        ghost var n;
        ghost var s := Now();
        op, n := CutPrefix(k);
        r := List(s, k)[..n];
        Taken(s, k, n);
      } else if h != 0 {
        ghost var s := Now();
        op := WholeBlock(k, h);
        r := BlockList(h, k.sz);
      } else {
        op := 0;
        Nothing(Now(), k);
      }
    }

    /** GC_free of a small object. */
    method Free(p: Addr)
      requires Inv(Now()) && (p == 0 || p in client)
      modifies this`heads, this`bytesFreed, this`lists, this`client, heap.mem
      ensures Inv(Now())
      ensures p == 0 ==> Now() == old(Now()) && bytesFreed == old(bytesFreed)
      ensures p != 0 ==> p < |old(Now()).m| && Now() == Give(old(Now()), p) && bytesFreed == old(bytesFreed) + KeyOf(old(Now()), p).sz
    {
      if p == 0 { return; }
      ghost var s := Now();
      Facts(s, KeyOf(s, p), 0, 0, p);
      SlotInMemory(s, p);
      GiveOk(s, p);
      hide Inv;
      var k := blocks[BlockOf(p)];
      bytesFreed := bytesFreed + k.sz;
      if k.kind in inits { ClearRest(p, k.sz); }
      ghost var list := List(s, k);
      heap.mem[p] := if k in heads then heads[k] else 0;
      heads := heads[k := p];
      lists, client := lists[k := [p] + list], client - {p};
      assert Now() == Give(s, p);
    }

    /** BZERO of all but the first word of an object. */
    method ClearRest(p: Addr, sz: nat)
      requires 0 < sz && p + sz <= heap.mem.Length
      modifies heap.mem
      ensures heap.mem[..] == Zeroed(old(heap.mem[..]), p, sz)
    {
      for w := p + 1 to p + sz
        invariant forall x :: 0 <= x < heap.mem.Length ==> heap.mem[x] == if p < x < w then 0 else old(heap.mem[x])
      {
        heap.mem[w] := 0;
      }
    }

    /** The client writes to an object it holds. */
    method ClientWrite(ghost a: Addr, w: Addr, v: nat)
      requires Inv(Now()) && a in client && WordOf(Now(), a, w)
      modifies heap.mem
      ensures w < |old(Now()).m| && Now() == Write(old(Now()), w, v) && Inv(Now())
    {
      WriteOk(Now(), a, w, v);
      hide Inv;
      heap.mem[w] := v;
      assert Now() == Write(old(Now()), w, v);
    }
  }
}
