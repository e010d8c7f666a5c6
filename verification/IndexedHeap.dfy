/**
The block allocator and the header index together.  In the source hb_sz and FREE_BLK are fields of the headers that
the index leads to; here the allocator has them as a map of its own, and every operation makes its header calls
on the index (libs/gc/allchblk.c, libs/gc/headers.c).  The two never disagree.
 */
module IndexedHeaps {
  import opened HeapShape
  import opened FreeLists
  import opened BlackLists
  import opened BlockSteps
  import opened HeaderIndex
  import opened IndexSteps
  import opened ObjectBase
  import A = BlockAllocators
  import H = HeaderTables
  import MergeSteps

  lemma AllocatorTiled(v: Heap, own: Owners)
    requires HeapOk(v, own)
    ensures Tiled(v.blk, own) && Orderly(v, {}) && Coalesced(v.blk)
  {
  }

  lemma IndexTiled(e: Entries, s: Shape, own: Owners, z: Sizes)
    requires Agrees(e, s, own, z)
    ensures Tiled(s, own)
  {
  }

  /** The used blocks of t are those of s, but for b, which is used in exactly one of them. */
  lemma GrantedFrom(env: Env, q: Request, limit: nat, s: Shape, before: Shape, f: nat, r: nat, after: Shape)
    requires AllocOutcome(env, q, limit, s, before, f, r, after)
    ensures r == 0 ==> after == before
    ensures r != 0 ==> IsFree(before, f) && f <= r && r + q.needed <= f + before[f].sz && after == Carve(before, f, r, q.needed)
  {
  }

  lemma FreedIs(s: Shape, b: nat, p: nat, t: Shape)
    requires FreedTo(s, b, p, t)
    ensures IsUsed(s, b) && FreeBefore(s, b, p) && 1 <= s[b].sz && (p != 0 ==> p < b && p in s && 1 <= s[p].sz) && t == Release(s, b, p)
  {
  }

  class IndexedHeap {
    const alloc: A.BlockAllocator
    const table: H.HeaderTable
    ghost var z: Sizes          // hb_sz of the used blocks in bytes

    /** Allocator and index are in order, and the index describes the allocator's partition of the heap. */
    ghost predicate Valid() reads this, alloc, table {
      alloc.Valid() && table.Valid() && Agrees(table.entries, alloc.blk, alloc.own, z)
    }

    constructor ()
      ensures Valid() && alloc.blk == map[] && fresh(alloc) && fresh(table)
    {
      alloc := new A.BlockAllocator();
      table := new H.HeaderTable();
      z := map[];
    }

    /** The index describes a partition with other owners of the pages: they are the same. */
    lemma SameOwners(o: Owners, y: Sizes)
      requires alloc.Valid() && Agrees(table.entries, alloc.blk, o, y)
      ensures Agrees(table.entries, alloc.blk, alloc.own, y)
    {
      AllocatorTiled(alloc.Here(), alloc.own);
      IndexTiled(table.entries, alloc.blk, o, y);
      OwnersUnique(alloc.blk, alloc.own, o);
    }

    /** GC_add_to_heap. */
    method AddToHeap(b: nat, n: nat, addressSpace: nat) returns (at: nat, pages: nat, ghost p: nat)
      requires Valid() && 1 <= n && b + n <= addressSpace && alloc.own.Keys !! Range(b, n)
      modifies this, alloc, table
      ensures var first, end := if b <= 1 then 2 else b, if b + n == addressSpace then b + n - 1 else b + n;
        pages == (if first < end then end - first else 0) && (pages != 0 ==> at == first)
      ensures Valid() && alloc.own.Keys == old(alloc.own).Keys + Range(at, pages)
      ensures if pages == 0 then alloc.blk == old(alloc.blk) else at >= 1 && FreedTo(old(alloc.blk)[at := Blk(pages, false)], at, p, alloc.blk)
      ensures KeepsSizes(old(alloc.blk), old(z), alloc.blk, z, 0)
    {
      ghost var s, own := alloc.blk, alloc.own;
      at, pages, p := alloc.AddToHeap(b, n, addressSpace);
      if pages == 0 {
        KeepsAll(table.entries, s, own, z);
        return;
      }
      PartOf(own, b, n, at, pages);
      hide HeapOk, Total, FreedTo, Agrees, Range, Tiled, FreeBefore, Release, Counts, KeepsSizes;
      ghost var p', o, y := table.AddSection(at, pages, s, own, z);
      SectionFreed(s, own, at, pages, p, p', alloc.blk);
      SameOwners(o, y);
      z := y;
    }

    /**
     * GC_allochblk: pages for an object, or objects, of `bytes` bytes.  The blocks that the search gives up get a
     * header for every page, and the pages that are granted get theirs.
     */
    method Allocate(env: Env, q: Request, bytes: nat, useMore: bool, freedLots: bool, largeAllocd: int, maxLargeAllocd: int)
      returns (r: nat, f: nat, ghost before: Shape, limit: nat, dropped: seq<nat>, ghost mid: Heap)
      requires Valid() && 1 <= bytes && q.needed == ToBlocks(bytes)
      modifies this, alloc, table
      ensures Valid() && alloc.own.Keys == old(alloc.own).Keys
      ensures AllocOutcome(env, q, limit, old(alloc.blk), before, f, r, alloc.blk) && Drops(old(alloc.blk), dropped, before)
      ensures Orderly(mid, {}) && OnlyDropped(env, q, old(alloc.blk), mid.blk)
      ensures (r != 0 && before[f].sz == q.needed) || IsLimit(mid.fl.freeBytes, useMore, freedLots, largeAllocd, maxLargeAllocd, limit)
      ensures r != 0 ==>
        var i := FlIndex(before[f].sz);
        i < |old(alloc.lists)| && FirstFit(env, q, before[f].sz != q.needed, before, Without(old(alloc.lists)[i], dropped), f)
      ensures alloc.largeFree + alloc.bytesDropped + (if r != 0 then q.needed else 0) == old(alloc.largeFree + alloc.bytesDropped)
      ensures r != 0 ==> Hdr(table.entries, r) == Header(bytes, false)
      ensures KeepsSizes(old(alloc.blk), old(z), alloc.blk, z, 0) && NewSizes(old(alloc.blk), alloc.blk, z, r, bytes)
    {
      NeedsBlocks(bytes);
      ghost var s, own := alloc.blk, alloc.own;
      hide HeapOk, Total, AllocOutcome, Agrees, Tiled, Drops, Counts, ToBlocks, Carve, Hdr, FirstFit, Without, IsLimit, Orderly, OnlyDropped, FlIndex, KeepsSizes, NewSizes;
      r, f, before, limit, dropped, mid := alloc.AllocHblk(env, q, useMore, freedLots, largeAllocd, maxLargeAllocd);
      GrantedFrom(env, q, limit, s, before, f, r, alloc.blk);
      ghost var o, y := IndexAllocated(dropped, f, r, q.needed, bytes, s, own, z, before, alloc.blk);
      SameOwners(o, y);
      z := y;
    }

    /** The index follows an allocation. */
    method IndexAllocated(dropped: seq<nat>, f: nat, r: nat, n: nat, bytes: nat,
                          ghost s: Shape, ghost own: Owners, ghost y0: Sizes, ghost before: Shape, ghost after: Shape)
      returns (ghost o: Owners, ghost y: Sizes)
      requires table.Valid() && Agrees(table.entries, s, own, y0) && Drops(s, dropped, before) && 1 <= n && 1 <= bytes && n == ToBlocks(bytes)
      requires if r == 0 then after == before else IsFree(before, f) && f <= r && r + n <= f + before[f].sz && after == Carve(before, f, r, n)
      modifies table
      ensures table.Valid() && Agrees(table.entries, after, o, y) && o.Keys == own.Keys
      ensures r != 0 ==> Hdr(table.entries, r) == Header(bytes, false)
      ensures KeepsSizes(s, y0, after, y, 0) && NewSizes(s, after, y, r, bytes)
    {
      hide Agrees, Drops, ToBlocks, Carve, Hdr, KeepsSizes, NewSizes;
      ghost var w;
      o, w := IndexDropped(dropped, s, own, y0, before);
      if r == 0 {
        NoneNamed(s, after, w, bytes);
        y := w;
      } else {
        NotUsed(before, f, r, n, table.entries, o, w);
        o, y := table.Allocated(f, r, n, bytes, before, o, w);
        CarveHas(before, f, r, n);
        HeaderIs(table.entries, after, o, y, r);
        KeepsThen(s, y0, before, w, 0, after, y);
        NewThen(s, before, w, after, y, r, bytes);
      }
    }

    /** The pages to be allocated are not the start of a block in use. */
    static lemma NotUsed(s: Shape, f: nat, r: nat, n: nat, e: Entries, own: Owners, z: Sizes)
      requires Agrees(e, s, own, z) && IsFree(s, f) && f <= r && 1 <= n && r + n <= f + s[f].sz
      ensures !IsUsed(s, r)
    {
      assert Inside(s, f, r) && Inside(s, f, f);
      if IsUsed(s, r) { NoneWithin(s, own, f); }
    }

    static lemma NoneNamed(s: Shape, t: Shape, y: Sizes, bytes: nat)
      requires NewSizes(s, t, y, 0, 0)
      ensures NewSizes(s, t, y, 0, bytes)
    {
    }

    /** The index follows the blocks that were given up. */
    method IndexDropped(dropped: seq<nat>, ghost s: Shape, ghost own: Owners, ghost y0: Sizes, ghost before: Shape)
      returns (ghost o: Owners, ghost y: Sizes)
      requires table.Valid() && Agrees(table.entries, s, own, y0) && Drops(s, dropped, before)
      modifies table
      ensures table.Valid() && Agrees(table.entries, before, o, y) && o.Keys == own.Keys
      ensures KeepsSizes(s, y0, before, y, 0) && NewSizes(s, before, y, 0, 0)
    {
      o, y := own, y0;
      ghost var t := s;
      var k := 0;
      KeepsAll(table.entries, s, own, y0);
      assert dropped[0..] == dropped;
      hide Agrees, Shatter, KeepsSizes, NewSizes;
      while k < |dropped|
        invariant k <= |dropped| && table.Valid() && Agrees(table.entries, t, o, y) && o.Keys == own.Keys
        invariant Drops(t, dropped[k..], before) && KeepsSizes(s, y0, t, y, 0) && NewSizes(s, t, y, 0, 0)
      {
        assert dropped[k..][0] == dropped[k] && dropped[k..][1..] == dropped[k + 1..];
        o, y := IndexOneDropped(dropped[k], s, y0, t, o, y);
        t := Shatter(t, dropped[k]);
        k := k + 1;
      }
    }

    method IndexOneDropped(f: nat, ghost s: Shape, ghost y0: Sizes, ghost t: Shape, ghost own: Owners, ghost z: Sizes)
      returns (ghost o: Owners, ghost y: Sizes)
      requires table.Valid() && Agrees(table.entries, t, own, z) && IsFree(t, f) && KeepsSizes(s, y0, t, z, 0) && NewSizes(s, t, z, 0, 0)
      modifies table
      ensures table.Valid() && Agrees(table.entries, Shatter(t, f), o, y) && o.Keys == own.Keys
      ensures KeepsSizes(s, y0, Shatter(t, f), y, 0) && NewSizes(s, Shatter(t, f), y, 0, 0)
    {
      NotUsed(t, f, f, 1, table.entries, own, z);
      hide Agrees, Shatter, KeepsSizes, NewSizes;
      o, y := table.Dropped(f, t, own, z);
      KeepsThen(s, y0, t, z, 0, Shatter(t, f), y);
      NewThen(s, t, z, Shatter(t, f), y, 0, 0);
    }

    /** GC_freehblk. */
    method Free(b: nat) returns (aborted: bool, ghost p: nat)
      requires Valid() && b in alloc.blk
      modifies this, alloc, table
      ensures aborted <==> IsFree(old(alloc.blk), b)
      ensures Valid() && alloc.own.Keys == old(alloc.own).Keys
      ensures if aborted then alloc.blk == old(alloc.blk) else FreedTo(old(alloc.blk), b, p, alloc.blk)
      ensures !aborted ==> alloc.largeFree == old(alloc.largeFree) + old(alloc.blk)[b].sz
      ensures KeepsSizes(old(alloc.blk), old(z), alloc.blk, z, b)
    {
      ghost var s, own := alloc.blk, alloc.own;
      AllocatorTiled(alloc.Here(), own);
      aborted, p := alloc.FreeHblk(b);
      if aborted {
        KeepsAll(table.entries, s, own, z);
        return;
      }
      hide HeapOk, Total, FreedTo, Agrees, Tiled, FreeBefore, Release, Counts, KeepsSizes;
      FreedIs(s, b, p, alloc.blk);
      ghost var p', o, y := table.Freed(b, s, own, z);
      FreeBeforeUnique(s, own, b, p, p');
      SameOwners(o, y);
      z := y;
    }

    /** What holds also when free blocks are not merged at once, because memory may be unmapped. */
    ghost predicate Loose() reads this, alloc, table {
      Orderly(alloc.Here(), {}) && Tiled(alloc.blk, alloc.own) && table.Valid() && Agrees(table.entries, alloc.blk, alloc.own, z)
    }

    /** In a heap that is in order, free blocks may begin to lie side by side. */
    lemma ValidLoose()
      requires Valid()
      ensures Loose()
    {
      AllocatorTiled(alloc.Here(), alloc.own);
      hide HeapOk, Orderly, Tiled, Agrees;
    }

    /** GC_freehblk between unmapped blocks; the neighbours may both be free. */
    method FreeApart(b: nat) returns (aborted: bool)
      requires Loose() && b in alloc.blk
      modifies this, alloc, table
      ensures aborted <==> IsFree(old(alloc.blk), b)
      ensures Loose() && alloc.own == old(alloc.own)
      ensures alloc.blk == if aborted then old(alloc.blk) else old(alloc.blk)[b := Blk(old(alloc.blk)[b].sz, true)]
      ensures KeepsSizes(old(alloc.blk), old(z), alloc.blk, z, b)
    {
      ghost var s, own := alloc.blk, alloc.own;
      hide Orderly, Agrees, Tiled, NewSizes;
      aborted := alloc.FreeApart(b);
      if aborted {
        KeepsAll(table.entries, s, own, z);
        return;
      }
      hide KeepsSizes;
      var n;
      ghost var y;
      n, y := table.FreeInPlace(b, s, own, z);
      z := y;
    }

    /** GC_merge_unmapped: the header of every block that is absorbed goes. */
    method MergeUnmapped(limit: nat)
      requires Loose()
      modifies this, alloc, table
      ensures Loose() && alloc.own.Keys == old(alloc.own).Keys && SameUsed(old(alloc.blk), alloc.blk)
      ensures forall b: nat :: !MergeSteps.Mergeable(alloc.blk, limit, b)
      ensures MergeSteps.WithinLimit(old(alloc.blk), limit, alloc.blk) && KeepsSizes(old(alloc.blk), old(z), alloc.blk, z, 0)
    {
      ghost var s, own := alloc.blk, alloc.own;
      hide Orderly, Agrees, Tiled, Merges, SameUsed, MergeSteps.Mergeable, MergeSteps.WithinLimit, KeepsSizes;
      var merged := alloc.MergeUnmapped(limit);
      ghost var o, y := IndexMerged(merged, s, own, z, alloc.blk);
      IndexTiled(table.entries, alloc.blk, o, y);
      OwnersUnique(alloc.blk, alloc.own, o);
      z := y;
    }

    /** The index follows the merges. */
    method IndexMerged(merged: seq<nat>, ghost s: Shape, ghost own: Owners, ghost y0: Sizes, ghost after: Shape)
      returns (ghost o: Owners, ghost y: Sizes)
      requires table.Valid() && Agrees(table.entries, s, own, y0) && Merges(s, merged, after)
      modifies table
      ensures table.Valid() && Agrees(table.entries, after, o, y) && o.Keys == own.Keys && KeepsSizes(s, y0, after, y, 0)
    {
      o, y := own, y0;
      ghost var t := s;
      var k := 0;
      KeepsAll(table.entries, s, own, y0);
      assert merged[0..] == merged;
      hide Agrees, AbsorbNext, Hdr, Tiled, KeepsSizes, NewSizes;
      while k < |merged|
        invariant k <= |merged| && table.Valid() && Agrees(table.entries, t, o, y) && o.Keys == own.Keys
        invariant Merges(t, merged[k..], after) && KeepsSizes(s, y0, t, y, 0)
      {
        var b := merged[k];
        assert merged[k..][0] == b && merged[k..][1..] == merged[k + 1..];
        o, y := IndexOneMerged(b, s, y0, t, o, y);
        t := AbsorbNext(t, b);
        k := k + 1;
      }
    }

    method IndexOneMerged(b: nat, ghost s: Shape, ghost y0: Sizes, ghost t: Shape, ghost own: Owners, ghost z: Sizes)
      returns (ghost o: Owners, ghost y: Sizes)
      requires table.Valid() && Agrees(table.entries, t, own, z) && CanAbsorb(t, b) && KeepsSizes(s, y0, t, z, 0)
      modifies table
      ensures table.Valid() && CanAbsorb(t, b) && Agrees(table.entries, AbsorbNext(t, b), o, y) && o.Keys == own.Keys
      ensures KeepsSizes(s, y0, AbsorbNext(t, b), y, 0)
    {
      hide Agrees, AbsorbNext, Hdr, Tiled, KeepsSizes;
      var following := table.EndOf(b, t, own, z);
      o, y := table.AbsorbToo(b, following, s, y0, t, own, z);
    }

    /** GC_base on the blocks that are in use now. */
    method Base(p: nat) returns (r: nat, ghost b: nat, ghost i: nat)
      requires Valid() && WordSizes(alloc.blk, z)
      ensures r == 0 ==> forall c: nat, j: nat :: !InSlot(alloc.blk, z, c, j, p)
      ensures r != 0 ==> InSlot(alloc.blk, z, b, i, p) && r == SlotStart(z[b], b, i)
    {
      r, b, i := table.Base(p, alloc.blk, alloc.own, z);
    }
  }

  lemma NeedsBlocks(bytes: nat)
    requires 1 <= bytes
    ensures 1 <= ToBlocks(bytes)
  {
  }

  lemma CarveHas(s: Shape, f: nat, r: nat, n: nat)
    requires f in s && f <= r && r + n <= f + s[f].sz && 1 <= n
    ensures IsUsed(Carve(s, f, r, n), r)
  {
  }

  lemma HeaderIs(e: Entries, s: Shape, own: Owners, z: Sizes, r: nat)
    requires Agrees(e, s, own, z) && IsUsed(s, r) && r in z
    ensures Hdr(e, r) == Header(z[r], false)
  {
    HeaderAt(e, s, own, z, r);
  }

  lemma SectionFreed(s: Shape, own: Owners, at: nat, n: nat, p: nat, p': nat, t: Shape)
    requires Tiled(s, own) && 1 <= at && 1 <= n && own.Keys !! Range(at, n)
    requires FreedTo(s[at := Blk(n, false)], at, p, t) && FreeBefore(s[at := Blk(n, false)], at, p')
    ensures p == p' && t == Release(s[at := Blk(n, false)], at, p)
  {
    SectionTiles(s, own, at, n, false);
    FreeBeforeUnique(s[at := Blk(n, false)], WithRange(own, at, n), at, p, p');
  }
}
