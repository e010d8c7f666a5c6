/**
Allocation and deallocation of heap blocks (libs/gc/allchblk.c), on headers and free lists that are
updated in place.  hb_sz and hb_flags of all headers form the map blk, hb_next and hb_prev the maps
next and prev.
 */
module BlockAllocators {
  import opened HeapShape
  import opened FreeLists
  import opened BlackLists
  import opened BlockSteps
  import MergeSteps

  class BlockAllocator {
    var blk: Shape
    var next: Links
    var prev: Links
    var heads: seq<nat>            // GC_hblkfreelist
    var freeBytes: seq<int>        // GC_free_bytes
    var largeFree: int             // GC_large_free_bytes
    var heapSize: nat              // GC_heapsize
    var bytesDropped: nat          // GC_bytes_dropped
    var count: nat                 // how often a completely black-listed block was met
    ghost var lists: seq<seq<nat>>
    ghost var home: map<nat, nat>
    ghost var own: Owners

    ghost function All(): AllLists reads this { AllLists(next, prev, heads, freeBytes, lists, home) }

    /** GC_large_free_bytes is what the lists hold. */
    ghost predicate Consistent() reads this {
      HeapOk(Heap(blk, All()), own) && largeFree == Total(freeBytes)
    }

    ghost predicate Valid() reads this {
      Consistent() && Counts(heapSize, own.Keys)
    }

    constructor ()
      ensures Valid() && own == map[] && blk == map[]
    {
      blk, next, prev := map[], map[], map[];
      heads := seq(N_HBLK_FLS + 1, (i: nat) => 0);
      freeBytes := seq(N_HBLK_FLS + 1, i => 0);
      largeFree, heapSize, bytesDropped, count := 0, 0, 0, 0;
      lists := seq(N_HBLK_FLS + 1, (i: nat) => []);
      home, own := map[], map[];
      new;
      TotalZeros(N_HBLK_FLS + 1);
      assert freeBytes == Zeros(N_HBLK_FLS + 1);
      EmptyHeap(Here());
    }

    // ---------- list surgery ----------

    ghost function Here(): Heap reads this { Heap(blk, All()) }

    /** GC_remove_from_fl; h is the j-th block of the list. */
    method RemoveFromFl(h: nat, index: nat, ghost j: nat)
      requires On(Here(), index, j) && lists[index][j] == h && h in blk && h in next && h in prev
      modifies this`next, this`prev, this`heads, this`freeBytes, this`lists, this`home
      ensures Here() == Take(old(Here()), index, j)
    {
      if prev[h] == 0 {
        heads := heads[index := next[h]];
      } else {
        next := next[prev[h] := next[h]];
      }
      freeBytes := freeBytes[index := freeBytes[index] - blk[h].sz];
      if next[h] != 0 {
        prev := prev[next[h] := prev[h]];
      }
      lists := lists[index := RemoveAt(lists[index], j)];
      home := home - {h};
    }

    /** GC_add_to_fl, for a block whose header says nothing about being free yet. */
    method AddToFl(h: nat)
      requires LengthsOf(All()) == Right && h in blk
      modifies this`next, this`prev, this`heads, this`freeBytes, this`lists, this`home, this`blk
      ensures Here() == Give(old(Here()), h, old(blk)[h].sz)
    {
      var index := FlIndex(blk[h].sz);
      var second := heads[index];
      heads := heads[index := h];
      freeBytes := freeBytes[index := freeBytes[index] + blk[h].sz];
      next := next[h := second];
      prev := prev[h := 0];
      if second != 0 {
        prev := prev[second := h];
      }
      lists := lists[index := [h] + lists[index]];
      home := home[h := index];
      blk := blk[h := Blk(blk[h].sz, true)];
    }

    /** GC_get_first_part. */
    method GetFirstPart(h: nat, n: nat, index: nat, ghost j: nat)
      requires On(Here(), index, j) && lists[index][j] == h && h in blk && h in next && h in prev && 1 <= n <= blk[h].sz
      modifies this`next, this`prev, this`heads, this`freeBytes, this`lists, this`home, this`blk
      ensures Here() == FirstPart(old(Here()), index, j, n)
    {
      var total := blk[h].sz;
      RemoveFromFl(h, index, j);
      if total == n { return; }
      var rest := h + n;
      ghost var v := Here();
      blk := blk[rest := Blk(total - n, false)];
      AddToFl(rest);
      GiveSame(v, rest, total - n);
    }

    /** In GC_split_block: n takes the place of h on its list. */
    method ReplaceInFl(h: nat, n: nat, size: nat, index: nat, ghost j: nat)
      requires On(Here(), index, j) && lists[index][j] == h && h in blk && h in next && h in prev
      requires size <= blk[h].sz && h != n
      modifies this`next, this`prev, this`heads, this`freeBytes, this`lists, this`home, this`blk
      ensures blk == old(blk)[n := Blk(size, false)] && All() == Replaced(old(All()), blk, index, j, n)
    {
      var before, after := prev[h], next[h];
      freeBytes := freeBytes[index := freeBytes[index] - (blk[h].sz - size)];
      prev := prev[n := before];
      next := next[n := after];
      blk := blk[n := Blk(size, false)];
      if before != 0 {
        next := next[before := n];
      } else {
        heads := heads[index := n];
      }
      if after != 0 {
        prev := prev[after := n];
      }
      lists := lists[index := Put(lists[index], j, n)];
      home := (home - {h})[n := index];
    }

    /** GC_split_block. */
    method SplitBlock(h: nat, n: nat, index: nat, ghost j: nat)
      requires On(Here(), index, j) && lists[index][j] == h && h in blk && h in next && h in prev
      requires h < n < h + blk[h].sz
      modifies this`next, this`prev, this`heads, this`freeBytes, this`lists, this`home, this`blk
      ensures Here() == Split(old(Here()), index, j, n)
    {
      ghost var v := Here();
      hide Added, Split;
      var size := blk[h].sz - (n - h);
      ReplaceInFl(h, n, size, index, j);
      ghost var a, f := All(), blk[h].free;
      blk := blk[h := Blk(n - h, blk[h].free)];
      AddToFl(h);
      blk := blk[n := Blk(blk[n].sz, true)];
      SplitSame(v, a, index, j, n, f);
    }

    // ---------- allocation ----------

    /** The pages r .. r + n of the free block h, which is on list `index`, are allocated. */
    method AllocateAt(h: nat, r: nat, n: nat, index: nat, ghost j: nat)
      requires CanAllocate(Here(), index, j, r, n) && lists[index][j] == h
      modifies this`next, this`prev, this`heads, this`freeBytes, this`lists, this`home, this`blk, this`largeFree
      ensures Here() == Allocated(old(Here()), index, j, r, n) && largeFree == old(largeFree) - n
    {
      ghost var k := PartedAt(Here(), index, j, r);
      hide FirstPart, Split, Total;
      if r != h {
        SplitBlock(h, r, index, j);
      }
      GetFirstPart(r, n, index, k);
      blk := blk[r := Blk(n, false)];
      largeFree := largeFree - n;
    }

    /** The loop that gives up the free block h page by page. */
    method DropBlock(h: nat, index: nat, ghost j: nat)
      requires On(Here(), index, j) && lists[index][j] == h && h in blk && h in next && h in prev
      modifies this`next, this`prev, this`heads, this`freeBytes, this`lists, this`home, this`blk, this`largeFree, this`bytesDropped
      ensures Here() == Dropped(old(Here()), index, j)
      ensures largeFree == old(largeFree) - old(blk)[h].sz && bytesDropped == old(bytesDropped) + old(blk)[h].sz
    {
      var total := blk[h].sz;
      largeFree := largeFree - total;
      bytesDropped := bytesDropped + total;
      ghost var s := blk;
      RemoveFromFl(h, index, j);
      hide Removed;
      for p := h to h + total
        modifies this`blk
        invariant All() == Removed(old(All()), s, index, j)
        invariant forall b: nat :: b in blk <==> b in s || h <= b < p
        invariant forall b: nat :: b in blk ==> blk[b] == if h <= b < p then Blk(1, false) else s[b]
      {
        blk := blk[p := Blk(1, false)];
      }
      ShatterIs(s, h, blk);
    }

    /** The search in the free block at f for a start clear of the black lists. */
    method FindStart(env: Env, q: Request, f: nat, size: nat) returns (r: nat)
      requires q.needed <= size
      ensures f <= r && forall p: nat :: f <= p < r ==> !Clean(env.bl, p, Effective(q))
      ensures r + q.needed <= f + size ==> Clean(env.bl, r, Effective(q))
      ensures q.needed == 1 ==> r <= f + size
    {
      r := f;
      while r + q.needed <= f + size
        invariant f <= r && forall p: nat :: f <= p < r ==> !Clean(env.bl, p, Effective(q))
        invariant q.needed == 1 ==> r <= f + size
        decreases f + size - r
      {
        var n := IsBlackListed(env.bl, r, Effective(q));
        if n == 0 { return; }
        r := n;
      }
    }

    /** The verdict about the j-th block of list n: which blocks are passed over, and which of them are counted as black-listed. */
    ghost predicate Judged(env: Env, q: Request, maySplit: bool, ls: seq<seq<nat>>, n: nat, j: nat, v: Verdict) reads this {
      n < |ls|
      && (if v.AllocateFrom? then !Skips(env, q, blk, ls[n], j) else PassedOver(env, q, maySplit, blk, ls[n], j))
      && (!env.findLeak ==> (v.AllBlack? <==> AllBlackAt(env, q, maySplit, blk, ls[n], j)))
    }

    /** The decision of GC_allochblk_nth about hbp, the j-th block of list n. */
    method Consider(env: Env, q: Request, maySplit: bool, hbp: nat, n: nat, ghost j: nat, ghost s: Shape, ghost pages: set<nat>)
      returns (v: Verdict)
      requires Searching(env, q, maySplit, n, s, pages, Here(), own, largeFree, hbp, j) && hbp != 0
      ensures v.AllocateFrom? ==> hbp in blk && v.r != 0 && Granted(env, q, blk, hbp, v.r) && (maySplit || blk[hbp].sz == q.needed)
      ensures v.AllBlack? ==> Tests(env, q) && !Eligible(env, q, maySplit, blk, hbp)
      ensures Judged(env, q, maySplit, lists, n, j, v)
      ensures n < |lists| && j < |lists[n]| && (!v.AllocateFrom? ==> hbp in next)
      ensures !v.AllocateFrom? ==> Searching(env, q, maySplit, n, s, pages, Here(), own, largeFree, next[hbp], j + 1)
    {
      AtPlace(Here(), own, n, j);
      var size := blk[hbp].sz;
      if size < q.needed || (size != q.needed && !maySplit) {
        PassOver(env, q, maySplit, blk, lists[n], j);
        return GoOn;
      }
      hide Clean, Eligible, Granted;
      if size != q.needed {
        var following := next[hbp];
        if following != 0 {
          var nextSize := blk[following].sz;
          if nextSize < size && nextSize >= q.needed {
            var c := IsBlackListed(env.bl, following, q.needed);
            if c == 0 { return GoOn; }
          }
        }
      }
      if !Tests(env, q) { return AllocateFrom(hbp); }
      var r := FindStart(env, q, hbp, size);
      GrantedAt(env, q, blk, hbp, r);
      if r + q.needed <= hbp + size { return AllocateFrom(r); }
      if Punts(env, q, size) { return AllocateFrom(hbp); }
      NotClean(env, q, maySplit, blk, hbp, r);
      PassOver(env, q, maySplit, blk, lists[n], j);
      return if r == hbp + size && q.needed == 1 then AllBlack else GoOn;
    }

    /** The search of list n ends with pages granted in its j-th block. */
    method TakeGranted(env: Env, q: Request, n: nat, maySplit: bool, hbp: nat, r: nat, ghost j: nat, ghost s: Shape, ghost pages: set<nat>)
      requires Searching(env, q, maySplit, n, s, pages, Here(), own, largeFree, hbp, j) && hbp != 0 && hbp in blk && r != 0
      requires Granted(env, q, blk, hbp, r) && (maySplit || blk[hbp].sz == q.needed)
      modifies this`next, this`prev, this`heads, this`freeBytes, this`lists, this`home, this`blk, this`largeFree, this`own
      ensures Consistent() && own.Keys == pages && largeFree == old(largeFree) - q.needed
      ensures NthOutcome(env, q, n, maySplit, s, old(blk), hbp, r, blk)
    {
      AllocationOk(Here(), own, n, j, r, q.needed);
      FreeBlock(Here(), own, n, j);
      SearchSucceeds(env, q, n, maySplit, s, blk, hbp, r);
      hide HeapOk, Total, NthOutcome, Allocated, Carve, Searching;
      own := CarveOwners(blk, own, hbp, r, q.needed);
      AllocateAt(hbp, r, q.needed, n, j);
    }

    ghost predicate AllBlackHere(env: Env, q: Request, maySplit: bool, n: nat, j: nat) reads this {
      n < |lists| && AllBlackAt(env, q, maySplit, blk, lists[n], j)
    }

    /** The j-th block of list n is given up; the search goes on behind the block before it. */
    method DropAllBlack(env: Env, q: Request, n: nat, maySplit: bool, hbp: nat, before: seq<nat>,
                        ghost j: nat, ghost s: Shape, ghost pages: set<nat>, ghost ls0: seq<seq<nat>>, ghost count0: nat)
      returns (previous: nat, dropped: seq<nat>)
      requires Searching(env, q, maySplit, n, s, pages, Here(), own, largeFree, hbp, j) && hbp != 0 && 0 < count && count % 4 == 0
      requires AllBlackHere(env, q, maySplit, n, j) && Passing(env, q, maySplit, ls0, count0, before, blk, lists, n, j, count - 1)
      requires Tests(env, q) && !env.findLeak && !Eligible(env, q, maySplit, blk, hbp) && Drops(s, before, blk)
      modifies this`next, this`prev, this`heads, this`freeBytes, this`lists, this`home, this`blk, this`largeFree,
        this`bytesDropped, this`own
      ensures |lists| == old(|lists|) && n < |lists| && j <= |lists[n]| == old(|lists[n]|) - 1 && largeFree + bytesDropped == old(largeFree + bytesDropped)
      ensures AfterDrop(env, q, maySplit, n, s, pages, Here(), own, largeFree, previous, j, ls0, count0, dropped, count)
    {
      dropped := before + [hbp];
      hide HeapOk, Total, OnlyDropped, Searching, Eligible, Dropped, Drops, Shatter, Passing, AllBlackAt, Tests, AfterDrop;
      GoesOnAfterDrop(env, q, maySplit, n, s, pages, Here(), own, largeFree, hbp, j, ls0, count0, before, count);
      previous := prev[hbp];
      own := ShatterOwners(blk, own, hbp);
      DropBlock(hbp, n, j);
    }

    lemma NotEligible(env: Env, q: Request, maySplit: bool, n: nat, j: nat, hbp: nat, s: Shape, pages: set<nat>)
      requires Searching(env, q, maySplit, n, s, pages, Here(), own, largeFree, hbp, j) && hbp != 0 && !Eligible(env, q, maySplit, blk, hbp)
      ensures n < |lists| && PassedOver(env, q, maySplit, blk, lists[n], j)
    {
    }

    /**
     * The block hbp is black-listed throughout.  Every fourth such block is given up; if it was the first of its
     * list, the search starts again.
     */
    method PassAllBlack(env: Env, q: Request, n: nat, maySplit: bool, hbp: nat, before: seq<nat>,
                        ghost j: nat, ghost s: Shape, ghost pages: set<nat>, ghost ls0: seq<seq<nat>>, ghost count0: nat)
      returns (again: bool, following: nat, dropped: seq<nat>, ghost k: nat)
      requires Searching(env, q, maySplit, n, s, pages, Here(), own, largeFree, hbp, j) && hbp != 0 && hbp in next
      requires n < |lists| && j < |lists[n]| && Searching(env, q, maySplit, n, s, pages, Here(), own, largeFree, next[hbp], j + 1)
      requires Tests(env, q) && !env.findLeak && !Eligible(env, q, maySplit, blk, hbp) && Drops(s, before, blk)
      requires AllBlackHere(env, q, maySplit, n, j) && Passing(env, q, maySplit, ls0, count0, before, blk, lists, n, j, count)
      modifies this`next, this`prev, this`heads, this`freeBytes, this`lists, this`home, this`blk, this`largeFree,
        this`bytesDropped, this`own, this`count
      ensures Passing(env, q, maySplit, ls0, count0, dropped, blk, lists, n, k, count) && (again ==> j == k == 0)
      ensures n < |lists| && k <= |lists[n]| <= old(|lists[n]|) && Drops(s, dropped, blk)
      ensures again ==> Consistent() && own.Keys == pages && OnlyDropped(env, q, s, blk) && |lists[n]| < old(|lists[n]|)
      ensures !again ==> Searching(env, q, maySplit, n, s, pages, Here(), own, largeFree, following, k)
      ensures !again ==> |lists[n]| - k < old(|lists[n]|) - j
      ensures largeFree + bytesDropped == old(largeFree + bytesDropped)
    {
      PassOne(env, q, maySplit, ls0, count0, before, blk, lists, n, j, count) by { NotEligible(env, q, maySplit, n, j, hbp, s, pages); }
      hide Searching, HeapOk, Total, OnlyDropped, Eligible, Tests, Drops, Passing, AllBlackAt;
      count := count + 1;
      if count % 4 != 0 { return false, next[hbp], before, j + 1; }
      var previous;
      hide Skips;
      previous, dropped := DropAllBlack(env, q, n, maySplit, hbp, before, j, s, pages, ls0, count0);
      if previous == 0 { return true, 0, dropped, 0; }
      return false, next[previous], dropped, j;
    }

    /**
     * GC_allochblk_nth; f is the block that r was cut from, and dropped are the blocks that were given up, in order.
     * When the search ended, the lists were `at`, and it had passed over the blocks before place j of list n.
     */
    method AllocHblkNth(env: Env, q: Request, n: nat, maySplit: bool)
      returns (r: nat, f: nat, ghost before: Shape, dropped: seq<nat>, ghost at: seq<seq<nat>>, ghost j: nat)
      requires Consistent() && n <= N_HBLK_FLS && 1 <= q.needed && n < |lists|
      modifies this`blk, this`next, this`prev, this`heads, this`freeBytes, this`largeFree, this`bytesDropped, this`count,
        this`lists, this`home, this`own
      ensures Consistent() && own.Keys == old(own).Keys
      ensures NthOutcome(env, q, n, maySplit, old(blk), before, f, r, blk) && Drops(old(blk), dropped, before)
      ensures Passing(env, q, maySplit, old(lists), old(count), dropped, before, at, n, j, count)
      ensures if r != 0 then j < |at[n]| && at[n][j] == f && !Skips(env, q, before, at[n], j) else at == lists && j == |at[n]|
      ensures largeFree + bytesDropped + (if r != 0 then q.needed else 0) == old(largeFree + bytesDropped)
      decreases |lists[n]|
    {
      SearchStarts(env, q, maySplit, n, Here(), own, largeFree);
      PassingStarts(env, q, maySplit, blk, lists, n, count);
      ghost var pages := own.Keys;
      hide Searching, HeapOk, Total, NthOutcome, OnlyDropped, Granted, Eligible, Tests, Shatter, Passing, AllBlackAt, Skips;
      assert Drops(blk, [], blk);
      hide Drops;
      dropped := [];
      var hbp := heads[n];
      j := 0;
      while hbp != 0
        invariant n < |lists| && j <= |lists[n]| <= old(|lists[n]|)
        invariant Drops(old(blk), dropped, blk) && largeFree + bytesDropped == old(largeFree + bytesDropped)
        invariant Passing(env, q, maySplit, old(lists), old(count), dropped, blk, lists, n, j, count)
        invariant Searching(env, q, maySplit, n, old(blk), pages, Here(), own, largeFree, hbp, j)
        decreases |lists[n]| - j
      {
        var v := Consider(env, q, maySplit, hbp, n, j, old(blk), pages);
        if v.AllocateFrom? {
          r, f, before, at := v.r, hbp, blk, lists;
          TakeGranted(env, q, n, maySplit, hbp, v.r, j, old(blk), pages);
          return;
        }
        if v.AllBlack? && !env.findLeak {
          var again;
          again, hbp, dropped, j := PassAllBlack(env, q, n, maySplit, hbp, dropped, j, old(blk), pages, old(lists), old(count));
          if again {
            ghost var t, ls, c := blk, lists, count;
            var more;
            r, f, before, more, at, j := AllocHblkNth(env, q, n, maySplit);
            SearchAgain(env, q, n, maySplit, old(blk), t, before, f, r, blk, dropped, more);
            PassingJoin(env, q, maySplit, old(lists), old(count), dropped, t, ls, c, more, before, at, n, j, count);
            dropped := dropped + more;
            return;
          }
          continue;
        }
        PassOne(env, q, maySplit, old(lists), old(count), dropped, blk, lists, n, j, count) by { assert Judged(env, q, maySplit, lists, n, j, v); }
        hbp := next[hbp];
        j := j + 1;
      }
      SearchEnds(env, q, maySplit, n, old(blk), pages, Here(), own, largeFree, j);
      r, f, before, at := 0, 0, blk, lists;
    }

    /**
     * GC_enough_large_bytes_left: the largest n such that the lists from n on hold enough, together
     * with what is allocated, for the most that was ever allocated in large blocks; otherwise 0.
     */
    method EnoughLargeBytesLeft(largeAllocd: int, maxLargeAllocd: int) returns (n: nat)
      requires |freeBytes| == N_HBLK_FLS + 1
      ensures n <= N_HBLK_FLS
      ensures n != 0 ==> largeAllocd + TotalFrom(freeBytes, n) >= maxLargeAllocd
      ensures forall m: nat {:trigger TotalFrom(freeBytes, m)} :: n < m <= N_HBLK_FLS ==> largeAllocd + TotalFrom(freeBytes, m) < maxLargeAllocd
    {
      var bytes := largeAllocd;
      var i: int := N_HBLK_FLS;
      TotalTail(freeBytes, N_HBLK_FLS + 1);
      hide TotalFrom;
      while 0 <= i
        invariant -1 <= i <= N_HBLK_FLS
        invariant bytes == largeAllocd + TotalFrom(freeBytes, i + 1)
        invariant forall m: nat {:trigger TotalFrom(freeBytes, m)} :: i < m <= N_HBLK_FLS ==> largeAllocd + TotalFrom(freeBytes, m) < maxLargeAllocd
      {
        TotalTail(freeBytes, i);
        bytes := bytes + freeBytes[i];
        if bytes >= maxLargeAllocd { return i; }
        i := i - 1;
      }
      return 0;
    }

    /** The choice of split_limit in GC_allochblk. */
    method SplitLimit(useMore: bool, freedLots: bool, largeAllocd: int, maxLargeAllocd: int) returns (n: nat)
      requires |freeBytes| == N_HBLK_FLS + 1
      ensures IsLimit(freeBytes, useMore, freedLots, largeAllocd, maxLargeAllocd, n)
    {
      if useMore { return N_HBLK_FLS; }
      if freedLots { return 0; }
      n := EnoughLargeBytesLeft(largeAllocd, maxLargeAllocd);
      forall m: nat | n < m <= N_HBLK_FLS ensures !EnoughFrom(freeBytes, m, largeAllocd, maxLargeAllocd) {
        assert largeAllocd + TotalFrom(freeBytes, m) < maxLargeAllocd;
      }
    }

    /**
     * GC_allochblk.  useMore says that more of the heap should be used even if it requires splitting,
     * freedLots that finalizers deallocated a lot.  Unless there is an exact match, the limit depends on the bytes on
     * the lists in `mid`, the heap as the search for one leaves it.  The block f that r is taken from is the first on
     * its list that the search does not go past.
     */
    method AllocHblk(env: Env, q: Request, useMore: bool, freedLots: bool, largeAllocd: int, maxLargeAllocd: int)
      returns (r: nat, f: nat, ghost before: Shape, limit: nat, dropped: seq<nat>, ghost mid: Heap)
      requires Valid() && 1 <= q.needed
      modifies this`blk, this`next, this`prev, this`heads, this`freeBytes, this`largeFree, this`bytesDropped, this`count,
        this`lists, this`home, this`own
      ensures Valid() && own.Keys == old(own).Keys
      ensures AllocOutcome(env, q, limit, old(blk), before, f, r, blk) && Drops(old(blk), dropped, before)
      ensures |dropped| == count / 4 - old(count) / 4
      ensures largeFree + bytesDropped + (if r != 0 then q.needed else 0) == old(largeFree + bytesDropped)
      ensures Orderly(mid, {}) && OnlyDropped(env, q, old(blk), mid.blk)
      ensures (r != 0 && before[f].sz == q.needed) || IsLimit(mid.fl.freeBytes, useMore, freedLots, largeAllocd, maxLargeAllocd, limit)
      ensures r != 0 ==>
        var i := FlIndex(before[f].sz);
        i < |old(lists)| && FirstFit(env, q, before[f].sz != q.needed, before, Without(old(lists)[i], dropped), f)
    {
      var startList := FlIndex(q.needed);
      assert startList <= N_HBLK_FLS && StartList(q.needed) == if startList < UNIQUE_THRESHOLD then startList + 1 else startList;
      limit := N_HBLK_FLS;
      AnyLengths(Here(), own);
      NothingDropped(env, q, blk);
      PassingStarts(env, q, false, blk, lists, startList, count);
      ghost var at, j;
      hide HeapOk, Total, NthOutcome, OnlyDropped, AllocOutcome, NoneBefore, Granted, FlIndex, StartList, Drops, Passing, IsLimit,
        FirstFit, Without, Skips, ListsWithout, Orderly;
      r, f, before, dropped, at, j := AllocHblkNth(env, q, startList, false);
      PassingGives(env, q, false, old(lists), old(count), [], old(lists), old(count), dropped, before, at, startList, j, count, f);
      assert [] + dropped == dropped;
      mid := Here();
      if r != 0 {
        FoundOnList(env, q, startList, false, limit, old(blk), old(blk), before, f, r, blk);
        mid := old(Here());
        return;
      }
      FailedNth(env, q, startList, false, old(blk), before, f, blk);
      ExactPass(env, q, old(blk), blk);
      AnyLengths(Here(), own);
      limit := SplitLimit(useMore, freedLots, largeAllocd, maxLargeAllocd);
      if startList < UNIQUE_THRESHOLD {
        startList := startList + 1;
      }
      r, f, before, dropped := SearchLists(env, q, startList, limit, old(blk), old(lists), old(count), dropped);
    }

    /** The loop of GC_allochblk over the lists from startList up to the limit, after ds were dropped. */
    method SearchLists(env: Env, q: Request, startList: nat, limit: nat, ghost s0: Shape, ghost ls0: seq<seq<nat>>, ghost count0: nat, ds: seq<nat>)
      returns (r: nat, f: nat, ghost before: Shape, dropped: seq<nat>)
      requires Consistent() && 1 <= q.needed && limit <= N_HBLK_FLS && startList == StartList(q.needed)
      requires OnlyDropped(env, q, s0, blk) && NoneBefore(env, q, blk, startList) && Drops(s0, ds, blk)
      requires ListsWithout(ls0, ds, lists) && |ds| == count / 4 - count0 / 4
      modifies this`blk, this`next, this`prev, this`heads, this`freeBytes, this`largeFree, this`bytesDropped, this`count,
        this`lists, this`home, this`own
      ensures Consistent() && own.Keys == old(own).Keys
      ensures AllocOutcome(env, q, limit, s0, before, f, r, blk) && Drops(s0, dropped, before)
      ensures |dropped| == count / 4 - count0 / 4
      ensures largeFree + bytesDropped + (if r != 0 then q.needed else 0) == old(largeFree + bytesDropped)
      ensures r != 0 ==>
        var i := FlIndex(before[f].sz);
        before[f].sz != q.needed && i < |ls0| && FirstFit(env, q, true, before, Without(ls0[i], dropped), f)
    {
      AnyLengths(Here(), own);
      hide HeapOk, Total, NthOutcome, OnlyDropped, AllocOutcome, NoneBefore, Granted, FlIndex, StartList, Drops, Passing,
        FirstFit, Without, Skips, ListsWithout;
      dropped := ds;
      var i := startList;
      while i <= limit
        invariant Consistent() && own.Keys == old(own).Keys && LengthsOf(All()) == Right
        invariant OnlyDropped(env, q, s0, blk) && NoneBefore(env, q, blk, i) && Drops(s0, dropped, blk)
        invariant ListsWithout(ls0, dropped, lists) && |dropped| == count / 4 - count0 / 4 && largeFree + bytesDropped == old(largeFree + bytesDropped)
      {
        ghost var s, ls, c, so := blk, lists, count, dropped;
        var more;
        ghost var at, j;
        r, f, before, more, at, j := AllocHblkNth(env, q, i, true);
        DropsJoin(s0, so, s, more, before);
        PassingGives(env, q, true, ls0, count0, so, ls, c, more, before, at, i, j, count, f);
        dropped := dropped + more;
        if r != 0 {
          FoundOnList(env, q, i, true, limit, s0, s, before, f, r, blk);
          return;
        }
        FailedNth(env, q, i, true, s, before, f, blk);
        NextList(env, q, s0, s, blk, i);
        AnyLengths(Here(), own);
        i := i + 1;
      }
      r, f, before := 0, 0, blk;
      AllFailed(env, q, limit, i, s0, blk);
    }

    // ---------- deallocation ----------

    /** GC_free_block_ending_at: the free block that ends just before h, or 0. */
    method FreeBlockEndingAt(h: nat) returns (p: nat)
      requires Tiled(blk, own)
      ensures FreeBefore(blk, h, p)
    {
      p := h;
      while p > 0
        invariant p <= h && forall c: nat :: p <= c < h ==> c !in blk
      {
        p := p - 1;
        if p in blk {
          if !(blk[p].free && p + blk[p].sz == h) {
            ghost var last := p;
            p := 0;
            forall q: nat | IsFree(blk, q) ensures q + blk[q].sz != h {
              if q < last && q + blk[q].sz == h { assert Inside(blk, q, last) && Inside(blk, last, last); }
            }
          }
          return;
        }
      }
    }

    /** In GC_freehblk: coalesce with the successor. */
    method MergeWithNext(b: nat, ghost j: nat)
      requires CanMergeRight(Here(), b, j)
      modifies this`next, this`prev, this`heads, this`freeBytes, this`lists, this`home, this`blk
      ensures Here() == MergedRight(old(Here()), b, j)
    {
      var following := b + blk[b].sz;
      if following in blk && blk[following].free {
        RemoveFromFl(following, FlIndex(blk[following].sz), j);
        hide Take;
        blk := (blk - {following})[b := Blk(blk[b].sz + blk[following].sz, true)];
      }
    }

    /** In GC_freehblk: coalesce with the predecessor. */
    method MergeWithPrev(b: nat, p: nat, ghost j: nat) returns (start: nat)
      requires CanMergeLeft(Here(), b, p, j)
      modifies this`next, this`prev, this`heads, this`freeBytes, this`lists, this`home, this`blk
      ensures Here() == MergedLeft(old(Here()), b, p, j) && start == if p != 0 then p else b
    {
      if p == 0 { return b; }
      RemoveFromFl(p, FlIndex(blk[p].sz), j);
      hide Take;
      blk := (blk - {b})[p := Blk(blk[p].sz + blk[b].sz, true)];
      return p;
    }

    /** The rest of GC_freehblk: the flagged block is merged with its neighbours and goes to its list. */
    method MergeAndList(b: nat, size: nat, previous: nat, ghost v: Heap)
      requires HeapOk(v, own) && largeFree == Total(v.fl.freeBytes) && IsUsed(v.blk, b) && size == v.blk[b].sz
      requires Here() == Flagged(v, b) && FreeBefore(blk, b, previous)
      modifies this`next, this`prev, this`heads, this`freeBytes, this`lists, this`home, this`blk, this`largeFree, this`own
      ensures Consistent() && own.Keys == old(own).Keys && largeFree == old(largeFree) + size
      ensures FreedTo(v.blk, b, previous, blk)
    {
      ghost var jn, o := FreeRight(v, own, b, previous);
      ghost var keys := own.Keys;
      hide HeapOk, Total, Give, MergedRight, MergedLeft, CanMergeRight, CanMergeLeft, RightMerged, FreeBefore, Flagged, FreedTo;
      MergeWithNext(b, jn);
      ghost var jp := FreeLeft(v, Here(), keys, o, b, previous);
      var start := MergeWithPrev(b, previous, jp);
      largeFree := largeFree + size;
      own := o;
      AddToFl(start);
    }

    /**
     * GC_freehblk: it aborts if the block is free already, and otherwise returns the block to the heap,
     * merged with its free neighbours.
     */
    method FreeHblk(b: nat) returns (aborted: bool, ghost p: nat)
      requires Consistent() && b in blk
      modifies this`next, this`prev, this`heads, this`freeBytes, this`lists, this`home, this`blk, this`largeFree, this`own
      ensures aborted <==> IsFree(old(blk), b)
      ensures aborted ==> Here() == old(Here()) && own == old(own) && largeFree == old(largeFree)
      ensures !aborted ==> Consistent() && own.Keys == old(own).Keys && largeFree == old(largeFree) + old(blk)[b].sz
      ensures !aborted ==> FreedTo(old(blk), b, p, blk)
    {
      if blk[b].free { return true, 0; }
      aborted := false;
      ghost var v := Here();
      FlaggedOk(v, own, b);
      hide HeapOk, Total, Orderly, FreedTo;
      var size := blk[b].sz;
      blk := blk[b := Blk(size, true)];
      var previous := FreeBlockEndingAt(b);
      MergeAndList(b, size, previous, v);
      p := previous;
    }

    /**
     * GC_freehblk when the free blocks around b are unmapped: they are not merged with it, and free blocks lie side by
     * side until GC_merge_unmapped.
     */
    method FreeApart(b: nat) returns (aborted: bool)
      requires Orderly(Here(), {}) && Tiled(blk, own) && b in blk
      modifies this`next, this`prev, this`heads, this`freeBytes, this`lists, this`home, this`blk, this`largeFree
      ensures aborted <==> IsFree(old(blk), b)
      ensures Orderly(Here(), {}) && Tiled(blk, own)
      ensures blk == if aborted then old(blk) else old(blk)[b := Blk(old(blk)[b].sz, true)]
      ensures largeFree == old(largeFree) + (if aborted then 0 else old(blk)[b].sz)
      ensures Total(freeBytes) == old(Total(freeBytes)) + if aborted then 0 else old(blk)[b].sz
    {
      if blk[b].free { return true; }
      aborted := false;
      FreedApart(Here(), own, b);
      hide Orderly, Tiled, Give, Total;
      largeFree := largeFree + blk[b].sz;
      AddToFl(b);
    }

    /** In GC_add_to_heap: pages too near address zero, and the last page of the address space, cannot be used. */
    method UsablePart(b: nat, n: nat, addressSpace: nat) returns (at: nat, pages: nat)
      requires 1 <= n && b + n <= addressSpace
      ensures var first, end := if b <= 1 then 2 else b, if b + n == addressSpace then b + n - 1 else b + n;
        pages == (if first < end then end - first else 0) && (pages != 0 ==> at == first)
    {
      at, pages := b, n;
      while at <= 1
        invariant b <= at <= b + n && at + pages == b + n && 1 <= pages && (at == b || at <= 2)
      {
        at := at + 1;
        pages := pages - 1;
        if pages == 0 { return; }
      }
      if at + pages == addressSpace {
        pages := pages - 1;
      }
    }

    /** GC_add_to_heap: the usable ones of n pages at b join the heap. */
    method AddToHeap(b: nat, n: nat, addressSpace: nat) returns (at: nat, pages: nat, ghost p: nat)
      requires Valid() && 1 <= n && b + n <= addressSpace && own.Keys !! Range(b, n)
      modifies this`next, this`prev, this`heads, this`freeBytes, this`lists, this`home, this`blk, this`largeFree, this`heapSize, this`own
      ensures var first, end := if b <= 1 then 2 else b, if b + n == addressSpace then b + n - 1 else b + n;
        pages == (if first < end then end - first else 0) && (pages != 0 ==> at == first)
      ensures Valid() && own.Keys == old(own).Keys + Range(at, pages)
      ensures if pages == 0 then Here() == old(Here()) && own == old(own)
        else at >= 1 && FreedTo(old(blk)[at := Blk(pages, false)], at, p, blk)
    {
      at, pages := UsablePart(b, n, addressSpace);
      p := 0;
      PartOf(own, b, n, at, pages);
      if pages == 0 {
        assert Range(at, pages) == {};
        return;
      }
      hide HeapOk, Total, FreedTo, WithRange, IsFree, Counts, Range, Tiled, Coalesced;
      p := AddSection(at, pages);
    }

    /** The new pages become a block, which is freed. */
    method AddSection(at: nat, pages: nat) returns (ghost p: nat)
      requires Valid() && 1 <= pages && 2 <= at && own.Keys !! Range(at, pages)
      modifies this`next, this`prev, this`heads, this`freeBytes, this`lists, this`home, this`blk, this`largeFree, this`heapSize, this`own
      ensures Valid() && own.Keys == old(own).Keys + Range(at, pages)
      ensures FreedTo(old(blk)[at := Blk(pages, false)], at, p, blk)
    {
      assert heapSize == |own.Keys|;
      hide HeapOk, Total, FreedTo, WithRange, Counts, Range, Orderly, Tiled, Coalesced;
      NewSectionOk(Here(), own, at, pages);
      blk := blk[at := Blk(pages, false)];
      own := WithRange(own, at, pages);
      var aborted;
      aborted, p := FreeHblk(at);
      heapSize := heapSize + pages;
    }

    /** The sizes of the used blocks and GC_large_free_bytes add up to GC_heapsize. */
    lemma Conservation()
      requires Valid()
      ensures |UsedPages(blk, own)| + largeFree == heapSize
    {
      NoBlocksLost(Here(), own);
    }

    // ---------- merging unmapped blocks ----------

    /** The block h of list i absorbs its successor and moves to the list for its new size. */
    method MergeOne(i: nat, h: nat, limit: nat, ghost j: nat, ghost pages: set<nat>, ghost used: Shape)
      requires MergeSteps.Merging(Here(), own, pages, used, limit, i, h, j) && h != 0 && MergeSteps.Mergeable(blk, limit, h)
      modifies this`next, this`prev, this`heads, this`freeBytes, this`lists, this`home, this`blk, this`own
      ensures MergeSteps.BetweenLists(Here(), own, pages, used, limit, i) && |home.Keys| < old(|home.Keys|)
      ensures CanAbsorb(old(blk), h) && blk == AbsorbNext(old(blk), h)
    {
      ghost var jn, o := MergeSteps.WholeStep(Here(), own, pages, used, limit, i, h, j);
      hide Take, MergedRight, Give, CanMergeRight, AbsorbNext, CanAbsorb, MergeSteps.BetweenLists, MergeSteps.Merging, MergeSteps.Mergeable;
      RemoveFromFl(h, i, j);
      MergeWithNext(h, jn);
      own := o;
      AddToFl(h);
    }

    /**
     * GC_merge_unmapped: one walk over the lists in increasing order leaves no free block that could
     * absorb its successor.  A common size over `limit` would overflow.
     */
    method MergeUnmapped(limit: nat) returns (merged: seq<nat>)
      requires Orderly(Here(), {}) && Tiled(blk, own)
      modifies this`next, this`prev, this`heads, this`freeBytes, this`lists, this`home, this`blk, this`own
      ensures Orderly(Here(), {}) && Tiled(blk, own) && own.Keys == old(own).Keys && SameUsed(old(blk), blk)
      ensures forall b: nat :: !MergeSteps.Mergeable(blk, limit, b)
      ensures MergeSteps.WithinLimit(old(blk), limit, blk)
      ensures Merges(old(blk), merged, blk)
    {
      ghost var pages, used := own.Keys, blk;
      merged := [];
      var i: nat := 0;
      while i <= N_HBLK_FLS
        invariant i <= N_HBLK_FLS + 1 && MergeSteps.BetweenLists(Here(), own, pages, used, limit, i)
        invariant Merges(old(blk), merged, blk)
      {
        merged := MergeList(i, limit, merged, pages, used);
        i := i + 1;
      }
      forall b: nat ensures !MergeSteps.Mergeable(blk, limit, b) {
        assert IsFree(blk, b) ==> FlIndex(blk[b].sz) < i;
      }
    }

    /** The walk over list i; merged are the blocks that have absorbed their successors since the headers were `used`. */
    method MergeList(i: nat, limit: nat, before: seq<nat>, ghost pages: set<nat>, ghost used: Shape) returns (merged: seq<nat>)
      requires i <= N_HBLK_FLS && MergeSteps.BetweenLists(Here(), own, pages, used, limit, i) && Merges(used, before, blk)
      modifies this`next, this`prev, this`heads, this`freeBytes, this`lists, this`home, this`blk, this`own
      ensures MergeSteps.BetweenLists(Here(), own, pages, used, limit, i + 1) && Merges(used, merged, blk)
    {
      MergeSteps.ListStarts(Here(), own, pages, used, limit, i);
      ghost var j := 0;
      var h := heads[i];
      merged := before;
      hide MergeSteps.BetweenLists, MergeSteps.Merging, MergeSteps.Mergeable, Merges, AbsorbNext, CanAbsorb;
      while h != 0
        invariant LengthsOf(All()) == Right && j <= |lists[i]| && Merges(used, merged, blk)
        invariant MergeSteps.Merging(Here(), own, pages, used, limit, i, h, j)
        decreases |home.Keys|, |lists[i]| - j
      {
        MergeSteps.AtBlock(Here(), own, pages, used, limit, i, h, j);
        if MergeSteps.Mergeable(blk, limit, h) {
          ghost var s := blk;
          MergeOne(i, h, limit, j, pages, used);
          MergesOne(used, merged, s, h);
          merged := merged + [h];
          MergeSteps.ListStarts(Here(), own, pages, used, limit, i);
          h, j := heads[i], 0;
        } else {
          h, j := next[h], j + 1;
        }
      }
      MergeSteps.ListEnds(Here(), own, pages, used, limit, i, j);
    }
  }
}
