/**
Small objects on the block allocator: GC_new_hblk gets its pages from GC_allochblk (libs/gc/new_hblk.c:176-196,
libs/gc/malloc.c:103-134), so that no word of a small object lies in another block of the heap.
 */
module SmallOnHeap {
  import opened Arithmetic
  import opened HeapShape
  import opened BlockSteps
  import opened SmallObjects
  import opened SmallHeap
  import I = IndexedHeaps
  import A = SmallAllocator
  import X = HeaderIndex

  /** The pages that were granted were not in use, and no block that is in use changes. */
  lemma GrantIsNew(env: Env, q: Request, limit: nat, s: Shape, own: Owners, before: Shape, f: nat, r: nat, after: Shape)
    requires Tiled(s, own) && AllocOutcome(env, q, limit, s, before, f, r, after) && 1 <= q.needed
    ensures KeepsUsed(s, after)
    ensures r != 0 ==> !IsUsed(s, r) && IsUsed(after, r) && after[r].sz == q.needed && r in own
  {
    if r != 0 {
      assert f in s && s[f] == before[f] && IsFree(s, f);
      NotUsedInside(s, own, f, r);
      if r + q.needed < f + s[f].sz { NotUsedInside(s, own, f, r + q.needed); }
      assert Inside(s, f, r);
    }
  }

  lemma NotUsedInside(s: Shape, own: Owners, f: nat, b: nat)
    requires Tiled(s, own) && IsFree(s, f) && f <= b < f + s[f].sz
    ensures !IsUsed(s, b)
  {
    assert Inside(s, f, b);
    if IsUsed(s, b) { assert Inside(s, b, b); }
  }

  lemma PageOfBlock(p: nat)
    ensures p * BW / BW == p && p * BW % BW == 0
  {
    DivModUnique(p * BW, BW, p, 0);
  }

  /** The pages lie in this much memory. */
  ghost predicate AllFit(own: Owners, words: nat) {
    forall p :: p in own ==> (p + 1) * BW <= words
  }

  lemma SameFit(own: Owners, o: Owners, words: nat)
    requires AllFit(own, words) && o.Keys == own.Keys
    ensures AllFit(o, words)
  {
    forall p | p in o ensures (p + 1) * BW <= words { assert p in own.Keys; }
  }

  lemma PageAddress(p: nat)
    ensures 0 <= p * BW && (p * BW == 0 <==> p == 0)
  {
    if p != 0 { MulMono(1, p, BW); }
  }

  /** Where the words of page p begin. */
  function PageStart(p: nat): Addr {
    PageAddress(p);
    p * BW
  }

  lemma PageEnd(p: nat, words: nat)
    requires (p + 1) * BW <= words
    ensures p * BW + BW <= words
  {
  }

  /** Every block of small objects is a block of one page of the heap. */
  ghost predicate Backed(s: Shape, small: map<Addr, Key>) {
    forall h :: h in small ==> h % BW == 0 && IsUsed(s, h / BW) && s[h / BW].sz == 1
  }

  lemma StillBacked(s: Shape, t: Shape, small: map<Addr, Key>)
    requires Backed(s, small) && KeepsUsed(s, t)
    ensures Backed(t, small)
  {
  }

  /** The block at h can take small objects. */
  ghost predicate IsPage(s: Shape, h: Addr, words: nat) {
    h % BW == 0 && h + BW <= words && IsUsed(s, h / BW) && s[h / BW].sz == 1
  }

  /** Block r, if it is not 0, was not in use and now is, as a block of one page; other blocks in use stay as they are. */
  ghost predicate OnePage(s: Shape, own: Owners, t: Shape, r: nat) {
    KeepsUsed(s, t) && (r != 0 ==> !IsUsed(s, r) && IsUsed(t, r) && t[r].sz == 1 && r in own)
  }

  lemma PagesTiled(pages: I.IndexedHeap)
    requires pages.Valid()
    ensures Tiled(pages.alloc.blk, pages.alloc.own)
  {
    I.AllocatorTiled(pages.alloc.Here(), pages.alloc.own);
  }

  /** How a call of GC_allochblk came out: split_limit, the headers when the search ended, the block that was cut, and the heap after the search for an exact match. */
  datatype Search = Search(limit: nat, before: Shape, f: nat, mid: BlockSteps.Heap)

  /** What GC_new_hblk asks for: one block of the kind, without IGNORE_OFF_PAGE. */
  function PageRequest(kind: nat): Request { Request(1, kind, false) }

  /** What GC_allochblk did about such a request; it granted block r, or none if r is 0. */
  ghost predicate PageOutcome(env: Env, kind: nat, policy: Policy, s: Shape, t: Shape, r: nat, how: Search) {
    && AllocOutcome(env, PageRequest(kind), how.limit, s, how.before, how.f, r, t)
    && Orderly(how.mid, {}) && OnlyDropped(env, PageRequest(kind), s, how.mid.blk)
    && ((r != 0 && how.before[how.f].sz == 1)
        || IsLimit(how.mid.fl.freeBytes, policy.useMore, policy.freedLots, policy.largeAllocd, policy.maxLargeAllocd, how.limit))
  }

  /** What GC_allochblk bases its limit for splitting on. */
  datatype Policy = Policy(useMore: bool, freedLots: bool, largeAllocd: int, maxLargeAllocd: int)

  ghost predicate NoneFree(s: Shape) { forall b: nat :: !IsFree(s, b) }

  /**
   * The object at op is the head of the free list, and no page was asked for; or the list was empty, and its object lies
   * in the page r that was granted, or there is none.
   */
  ghost predicate Served(env: Env, k: Key, policy: Policy, s: State, t: State, pages: Shape, after: Shape, op: Addr, r: nat, how: Search) {
    if List(s, k) != [] then op == List(s, k)[0] && t.blocks == s.blocks && after == pages
    else
      && PageOutcome(env, k.kind, policy, pages, after, r, how)
      && if r == 0 then op == 0 && t.blocks == s.blocks else op != 0 && BlockOf(op) == PageStart(r) && t.blocks == s.blocks[PageStart(r) := k]
  }

  /** Objects of this kind are never collected, or have no pointers: pages for them may be black-listed. */
  predicate NeverTested(env: Env, kind: nat) { MarkModel.IsUncollectable(kind, env.atomicUncollectable) || kind == MarkModel.PTRFREE }

  /** No page is granted: with the whole heap to be used, and no black-list test, no block is free. */
  lemma NoPageNoFree(env: Env, kind: nat, policy: Policy, s: Shape, t: Shape, own: Owners, how: Search)
    requires PageOutcome(env, kind, policy, s, t, 0, how) && policy.useMore && NeverTested(env, kind) && Tiled(t, own)
    ensures NoneFree(t)
  {
    SearchIsComplete(env, PageRequest(kind), s, how.before, how.f, t);
    assert forall b: nat :: b in t ==> 1 <= t[b].sz;
  }

  /** GC_allochblk for one block. */
  method AllocatePage(pages: I.IndexedHeap, env: Env, kind: nat, bytes: nat, policy: Policy) returns (r: nat, ghost how: Search)
    requires pages.Valid() && 1 <= bytes && X.ToBlocks(bytes) == 1
    modifies pages, pages.alloc, pages.table
    ensures pages.Valid() && pages.alloc.own.Keys == old(pages.alloc.own).Keys
    ensures OnePage(old(pages.alloc.blk), old(pages.alloc.own), pages.alloc.blk, r)
    ensures PageOutcome(env, kind, policy, old(pages.alloc.blk), pages.alloc.blk, r, how)
    ensures r == 0 && policy.useMore && NeverTested(env, kind) ==> NoneFree(pages.alloc.blk)
  {
    ghost var s, own := pages.alloc.blk, pages.alloc.own;
    PagesTiled(pages);
    hide HeapOk, X.Agrees, X.Hdr, X.ToBlocks, Counts, Tiled, AllocOutcome, IsLimit, Orderly, OnlyDropped, NeverTested, FirstFit, Drops;
    var f, limit, dropped;
    ghost var before, mid;
    r, f, before, limit, dropped, mid := pages.Allocate(env, PageRequest(kind), bytes, policy.useMore, policy.freedLots, policy.largeAllocd,
                                                        policy.maxLargeAllocd);
    how := Search(limit, before, f, mid);
    GrantIsNew(env, PageRequest(kind), limit, s, own, before, f, r, pages.alloc.blk);
    PagesTiled(pages);
    hide OnePage, PageOutcome, NoneFree;
    if r == 0 && policy.useMore && NeverTested(env, kind) { NoPageNoFree(env, kind, policy, s, pages.alloc.blk, pages.alloc.own, how); }
  }

  /** The section is new, and joins free blocks only. */
  lemma SectionKeeps(s: Shape, own: Owners, at: nat, n: nat, p: nat, t: Shape)
    requires Tiled(s, own) && own.Keys !! Range(at, n) && FreedTo(s[at := Blk(n, false)], at, p, t)
    ensures KeepsUsed(s, t)
  {
    assert Between(at, n, at) && at in Range(at, n) && at !in own;
    assert at in s ==> Inside(s, at, at);
  }

  lemma PartRange(b: nat, n: nat, at: nat, got: nat)
    requires got != 0 ==> b <= at && at + got <= b + n
    ensures Range(at, got) <= Range(b, n)
  {
    forall q: nat | q in Range(at, got) ensures q in Range(b, n) { assert Between(at, got, q) && Between(b, n, q); }
  }

  method ExpandPages(pages: I.IndexedHeap, b: nat, n: nat, addressSpace: nat) returns (at: nat, got: nat, ghost p: nat)
    requires pages.Valid() && 1 <= n && b + n <= addressSpace && pages.alloc.own.Keys !! Range(b, n)
    modifies pages, pages.alloc, pages.table
    ensures pages.Valid() && KeepsUsed(old(pages.alloc.blk), pages.alloc.blk)
    ensures var first, end := if b <= 1 then 2 else b, if b + n == addressSpace then b + n - 1 else b + n;
      got == (if first < end then end - first else 0) && (got != 0 ==> at == first)
    ensures pages.alloc.own.Keys == old(pages.alloc.own).Keys + Range(at, got) && Range(at, got) <= Range(b, n)
    ensures if got == 0 then pages.alloc.blk == old(pages.alloc.blk)
            else FreedTo(old(pages.alloc.blk)[at := Blk(got, false)], at, p, pages.alloc.blk)
  {
    ghost var s, own := pages.alloc.blk, pages.alloc.own;
    PagesTiled(pages);
    hide HeapOk, X.Agrees, Counts, Tiled, Range, FreedTo;
    at, got, p := pages.AddToHeap(b, n, addressSpace);
    PartRange(b, n, at, got);
    if got != 0 { SectionKeeps(s, own, at, got, p, pages.alloc.blk); }
  }

  lemma NewPageFits(at: nat, got: nat, b: nat, n: nat, p: nat, words: nat)
    requires p in Range(at, got) && Range(at, got) <= Range(b, n) && (b + n) * BW <= words
    ensures (p + 1) * BW <= words
  {
    assert p in Range(b, n);
    MulMono(p + 1, b + n, BW);
  }

  lemma PagesFit(own: Owners, o: Owners, at: nat, got: nat, b: nat, n: nat, words: nat)
    requires o.Keys == own.Keys + Range(at, got) && Range(at, got) <= Range(b, n) && (b + n) * BW <= words
    requires AllFit(own, words)
    ensures AllFit(o, words)
  {
    forall p | p in o ensures (p + 1) * BW <= words {
      assert p in o.Keys;
      if p !in own { NewPageFits(at, got, b, n, p, words); }
    }
  }

  lemma SectionBacked(s: Shape, own: Owners, t: Shape, o: Owners, at: nat, got: nat, b: nat, n: nat, small: map<Addr, Key>, words: nat)
    requires KeepsUsed(s, t) && o.Keys == own.Keys + Range(at, got) && Range(at, got) <= Range(b, n) && (b + n) * BW <= words
    requires Backed(s, small) && AllFit(own, words)
    ensures Backed(t, small) && AllFit(o, words)
  {
    StillBacked(s, t, small);
    PagesFit(own, o, at, got, b, n, words);
  }

  /** What a grant means for the blocks of small objects. */
  lemma PageGranted(s: Shape, own: Owners, after: Shape, r: nat, small: map<Addr, Key>, words: nat)
    requires OnePage(s, own, after, r) && Backed(s, small) && AllFit(own, words)
    ensures Backed(after, small) && (r != 0 ==> r * BW !in small && IsPage(after, r * BW, words))
  {
    StillBacked(s, after, small);
    PageOfBlock(r);
    if r != 0 { PageEnd(r, words); }
  }

  lemma PageUsable(s: Shape, own: Owners, after: Shape, own': Owners, r: nat, h: Addr, small: map<Addr, Key>, words: nat)
    requires OnePage(s, own, after, r) && Backed(s, small) && AllFit(own, words) && own'.Keys == own.Keys && h == PageStart(r)
    ensures Backed(after, small) && AllFit(own', words) && (h == 0 <==> r == 0) && (h != 0 ==> h !in small && IsPage(after, h, words))
  {
    hide OnePage, Backed, AllFit, IsPage;
    PageGranted(s, own, after, r, small, words);
    SameFit(own, own', words);
    PageAddress(r);
  }

  /** The list got a new block, or stayed as it was. */
  lemma BlocksAfter(pages: Shape, s: State, h: Addr, k: Key, u: State, t: State, words: nat)
    requires Backed(pages, s.blocks) && (h != 0 ==> IsPage(pages, h, words))
    requires u == s || (h != 0 && 0 < k.sz <= BW && u == Listed(s, u.m, h, k))
    requires t == u || (0 < |List(u, k)| && List(u, k)[0] < |u.m| && t == SmallHeap.Take(u, k, 1))
    ensures Backed(pages, t.blocks)
  {
  }

  lemma SlotPage(pages: Shape, t: State, op: Addr)
    requires Inv(t) && Backed(pages, t.blocks) && IsSlot(t, op)
    ensures IsPage(pages, BlockOf(op), |t.m|) && op + KeyOf(t, op).sz <= BlockOf(op) + BW
  {
    Facts(t, KeyOf(t, op), 0, 0, op);
    SlotInMemory(t, op);
    hide Inv;
  }

  lemma OneOwner(pages: Shape, own: Owners, t: State, a: Addr, w: Addr, page: nat, c: nat)
    requires Tiled(pages, own) && Backed(pages, t.blocks) && WordOf(t, a, w)
    requires page * BW <= w < page * BW + BW && Inside(pages, c, page)
    ensures c * BW == BlockOf(a)
  {
    var h := BlockOf(a);
    WordsApart(t, a, a, w);
    PageOfBlock(page);
    InBlock(page * BW, w);
    assert h == page * BW && h / BW == page && h in t.blocks;
    assert Inside(pages, page, page);
  }

  class ObjectHeap {
    const pages: I.IndexedHeap
    const small: A.Allocator

    ghost predicate Valid()
      reads this, pages, pages.alloc, pages.table, small, small.heap.mem
    {
      && pages.Valid() && Inv(small.Now()) && Backed(pages.alloc.blk, small.blocks)
      && AllFit(pages.alloc.own, small.heap.mem.Length)
    }

    constructor (words: nat, inits: set<nat>, debugging: bool)
      ensures Valid() && fresh(pages) && fresh(small) && small.client == {}
      ensures pages.alloc.blk == map[] && small.blocks == map[] && small.inits == inits && small.debugging == debugging
      ensures small.heap.mem.Length == words && small.bytesAllocd == small.bytesFreed == 0
    {
      pages := new I.IndexedHeap();
      small := new A.Allocator(words, inits, debugging);
    }

    /**
     * GC_add_to_heap; the pages are memory of the client's address space.  The heap gets the pages from `at` on, as one
     * block that is freed, and the blocks of small objects stay as they are.
     */
    method Expand(b: nat, n: nat, addressSpace: nat) returns (at: nat, got: nat, ghost p: nat)
      requires 1 <= n && b + n <= addressSpace && pages.alloc.own.Keys !! Range(b, n) && (b + n) * BW <= small.heap.mem.Length
      requires Valid()
      modifies pages, pages.alloc, pages.table
      ensures Valid()
      ensures var first, end := if b <= 1 then 2 else b, if b + n == addressSpace then b + n - 1 else b + n;
        got == (if first < end then end - first else 0) && (got != 0 ==> at == first)
      ensures pages.alloc.own.Keys == old(pages.alloc.own).Keys + Range(at, got)
      ensures if got == 0 then pages.alloc.blk == old(pages.alloc.blk)
              else FreedTo(old(pages.alloc.blk)[at := Blk(got, false)], at, p, pages.alloc.blk)
    {
      ghost var s, own := pages.alloc.blk, pages.alloc.own;
      hide Inv, HeapOk, X.Agrees, Counts, Backed, AllFit, Range, KeepsUsed, FreedTo;
      at, got, p := ExpandPages(pages, b, n, addressSpace);
      SectionBacked(s, own, pages.alloc.blk, pages.alloc.own, at, got, b, n, small.blocks, small.heap.mem.Length);
    }

    /** No word of a small object lies in another block of the heap. */
    lemma InNoOtherBlock(a: Addr, w: Addr, page: nat, c: nat)
      requires WordOf(small.Now(), a, w) && page * BW <= w < page * BW + BW && Inside(pages.alloc.blk, c, page)
      requires Valid()
      ensures c * BW == BlockOf(a)
    {
      hide Inv, HeapOk, X.Agrees, Counts, Tiled, Backed;
      PagesTiled(pages);
      OneOwner(pages.alloc.blk, pages.alloc.own, small.Now(), a, w, page, c);
    }

    /** The block at h can take small objects, and has not yet. */
    ghost predicate IsNew(h: Addr)
      reads pages, pages.alloc, small, small.heap.mem
    {
      h !in small.blocks && IsPage(pages.alloc.blk, h, small.heap.mem.Length)
    }

    /** GC_new_hblk asks for one block; 0 if there is none. */
    method NewPage(env: Env, kind: nat, bytes: nat, policy: Policy) returns (h: Addr, ghost r: nat, ghost how: Search)
      requires Valid() && 1 <= bytes && X.ToBlocks(bytes) == 1
      modifies pages, pages.alloc, pages.table
      ensures Valid() && h == PageStart(r) && (h == 0 <==> r == 0) && (h != 0 ==> IsNew(h))
      ensures PageOutcome(env, kind, policy, old(pages.alloc.blk), pages.alloc.blk, r, how)
      ensures r == 0 && policy.useMore && NeverTested(env, kind) ==> NoneFree(pages.alloc.blk)
    {
      ghost var s, own, t := pages.alloc.blk, pages.alloc.own, small.Now();
      assert pages.Valid() && Inv(t) && Backed(s, small.blocks) && AllFit(own, small.heap.mem.Length);
      hide *;
      var page;
      page, how := AllocatePage(pages, env, kind, bytes, policy);
      h, r := PageStart(page), page;
      PageUsable(s, own, pages.alloc.blk, pages.alloc.own, page, h, small.blocks, small.heap.mem.Length);
      assert small.Now() == t;
      ValidWith(h);
    }

    lemma ValidWith(h: Addr)
      requires pages.Valid() && Inv(small.Now()) && Backed(pages.alloc.blk, small.blocks) && AllFit(pages.alloc.own, small.heap.mem.Length)
      requires h != 0 ==> h !in small.blocks && IsPage(pages.alloc.blk, h, small.heap.mem.Length)
      ensures Valid() && (h != 0 ==> IsNew(h))
    {
    }

    /**
     * GC_generic_malloc_inner for small objects.  The new object was not held before, and its words lie in a block
     * of one page, which the block allocator has given to small objects of this kind and size.  Only if the free list
     * is empty, a page is asked for (`r` and `how` tell what came of it), and only if there is none, the result is 0.
     */
    method Malloc(k: Key, env: Env, bytes: nat, policy: Policy) returns (op: Addr, ghost r: nat, ghost how: Search)
      requires Valid() && 0 < k.sz <= BW && 1 <= bytes && X.ToBlocks(bytes) == 1
      modifies pages, pages.alloc, pages.table, small, small.heap.mem
      ensures Valid() && (if op == 0 then small.client == old(small.client) else IsObject(k, op))
      ensures op != 0 ==> op !in old(small.client) && small.client == old(small.client) + {op}
      ensures Served(env, k, policy, old(small.Now()), small.Now(), old(pages.alloc.blk), pages.alloc.blk, op, r, how)
      ensures op == 0 && policy.useMore && NeverTested(env, k.kind) ==> NoneFree(pages.alloc.blk)
    {
      hide Inv, HeapOk, X.Agrees, X.Hdr, X.ToBlocks, Counts, Tiled, Backed, AllFit, PageOutcome, NeverTested, List, NoneFree;
      var h := 0;
      r, how := 0, Search(0, map[], 0, pages.alloc.Here());
      var first := small.FirstFree(k);
      if first == 0 { h, r, how := NewPage(env, k.kind, bytes, policy); }
      op := FromList(k, h);
    }

    /** An object of this kind and size, cleared if the kind is, in a block that the block allocator has given to it. */
    ghost predicate IsObject(k: Key, op: Addr)
      reads pages, pages.alloc, small, small.heap.mem
    {
      && KeyOf(small.Now(), op) == k && op + k.sz <= small.heap.mem.Length
      && IsPage(pages.alloc.blk, BlockOf(op), small.heap.mem.Length) && op + k.sz <= BlockOf(op) + BW
      && (k.kind in small.inits ==> forall w :: op <= w < op + k.sz ==> small.heap.mem[w] == 0)
    }

    /** The rest, when the block for an empty list has been found. */
    method FromList(k: Key, h: Addr) returns (op: Addr)
      requires Valid() && 0 < k.sz <= BW && (h != 0 ==> IsNew(h))
      modifies small, small.heap.mem
      ensures Valid() && (if op == 0 then small.client == old(small.client) else IsObject(k, op))
      ensures op != 0 ==> op !in old(small.client) && small.client == old(small.client) + {op}
      ensures if List(old(small.Now()), k) != [] then op == List(old(small.Now()), k)[0] && op != 0 && small.blocks == old(small.blocks)
              else if h == 0 then op == 0 && small.blocks == old(small.blocks)
              else small.blocks == old(small.blocks)[h := k] && op != 0 && BlockOf(op) == h
    {
      ghost var s := small.Now();
      hide Inv, HeapOk, X.Agrees, Counts, Backed, AllFit, SmallHeap.Take, NewBlock, List, IsSlot, BlockList;
      ghost var u;
      op, u := small.Malloc(k, h);
      BlocksAfter(pages.alloc.blk, s, h, k, u, small.Now(), small.heap.mem.Length);
      if op != 0 { SlotPage(pages.alloc.blk, small.Now(), op); }
    }
  }
}
