/**
The steps of allocating and freeing heap blocks (libs/gc/allchblk.c), as functions on the headers and
the free lists, and what they keep.  Sizes are in blocks; headers can always be allocated and sizes do
not overflow.  The class BlockAllocator updates the same state in place.
 */
module BlockSteps {
  import opened HeapShape
  import opened FreeLists
  import opened BlackLists
  import MarkModel

  /** State of other modules that allocation reads. */
  datatype Env = Env(bl: Lists,
                     blackListSpacing: nat,     // BL_LIMIT, in blocks
                     findLeak: bool,            // GC_find_leak
                     atomicUncollectable: bool) // built with ATOMIC_UNCOLLECTABLE

  /** A call of GC_allochblk: blocks needed, object kind, and IGNORE_OFF_PAGE. */
  datatype Request = Request(needed: nat, kind: nat, ignoreOffPage: bool)

  /** MAX_BLACK_LIST_ALLOC, in blocks. */
  const MAX_BLACK_LIST_ALLOC: nat := 2

  /** The black lists matter for this request. */
  predicate Tests(env: Env, q: Request) {
    !MarkModel.IsUncollectable(q.kind, env.atomicUncollectable)
    && (q.kind != MarkModel.PTRFREE || q.needed > MAX_BLACK_LIST_ALLOC)
  }

  /** eff_size_needed. */
  function Effective(q: Request): nat { if q.ignoreOffPage then 1 else q.needed }

  /** The request and the free block are so large that black-listing is ignored if it must be. */
  predicate Punts(env: Env, q: Request, size: nat) {
    q.needed > env.blackListSpacing && q.needed <= size && size - q.needed > env.blackListSpacing
  }

  /** Nowhere in the size pages at f does the request fit clear of the black lists. */
  ghost predicate NoCleanStart(env: Env, q: Request, f: nat, size: nat) {
    forall r: nat :: f <= r && r + q.needed <= f + size ==> !Clean(env.bl, r, Effective(q))
  }

  /** A free block of this size at f can serve the request. */
  ghost predicate Usable(env: Env, q: Request, f: nat, size: nat) {
    q.needed <= size && (Tests(env, q) && NoCleanStart(env, q, f, size) ==> Punts(env, q, size))
  }

  /** r is where the free block f of s serves the request: the first place clear of the black lists. */
  ghost predicate Granted(env: Env, q: Request, s: Shape, f: nat, r: nat) {
    && IsFree(s, f) && f <= r && r + q.needed <= f + s[f].sz
    && (!Tests(env, q) ==> r == f)
    && (Tests(env, q) ==>
          if NoCleanStart(env, q, f, s[f].sz) then r == f && Punts(env, q, s[f].sz)
          else Clean(env.bl, r, Effective(q)) && forall p: nat :: f <= p < r ==> !Clean(env.bl, p, Effective(q)))
  }

  // ---------- invariants ----------

  /** The block is on a list exactly if it is free, and then on the list for its size. */
  ghost predicate HomedAt(s: Shape, a: AllLists, b: nat) {
    (b in a.home <==> IsFree(s, b)) && (b in a.home ==> a.home[b] == FlIndex(SizeOf(s, b)))
  }

  /** All blocks but those in ex are where they belong. */
  ghost predicate Homed(s: Shape, a: AllLists, ex: set<nat>) {
    forall b: nat {:trigger HomedAt(s, a, b)} :: b !in ex ==> HomedAt(s, a, b)
  }

  /** Headers and free lists. */
  datatype Heap = Heap(blk: Shape, fl: AllLists)

  ghost predicate Orderly(v: Heap, ex: set<nat>) {
    ListsOk(v.fl, v.blk) && Homed(v.blk, v.fl, ex)
  }

  ghost predicate HeapOk(v: Heap, own: Owners) {
    Orderly(v, {}) && Tiled(v.blk, own) && Coalesced(v.blk)
  }

  /** Where h is on its list. */
  lemma Position(a: AllLists, s: Shape, h: nat) returns (j: nat)
    requires ListsOk(a, s) && h in a.home
    ensures a.home[h] < |a.lists| && j < |a.lists[a.home[h]]| && a.lists[a.home[h]][j] == h
  {
    assert HomeOk(a, s, h);
    j :| 0 <= j < |a.lists[a.home[h]]| && a.lists[a.home[h]][j] == h;
  }

  lemma HomeInShape(a: AllLists, s: Shape)
    requires ListsOk(a, s)
    ensures forall x: nat :: x in a.home ==> x in s
  {
    forall x: nat | x in a.home ensures x in s { assert HomeOk(a, s, x); }
  }

  // ---------- list operations as functions ----------

  ghost predicate On(v: Heap, i: nat, j: nat) {
    LengthsOf(v.fl) == Right && i <= N_HBLK_FLS && j < |v.fl.lists[i]|
  }

  /** The j-th block of list i leaves it. */
  ghost function Take(v: Heap, i: nat, j: nat): Heap
    requires On(v, i, j)
  {
    v.(fl := Removed(v.fl, v.blk, i, j))
  }

  /** A free block of n pages is made at h. */
  ghost function Give(v: Heap, h: nat, n: nat): Heap
    requires LengthsOf(v.fl) == Right
  {
    Heap(v.blk[h := Blk(n, true)], Added(v.fl, v.blk[h := Blk(n, false)], h))
  }

  lemma TakeOk(v: Heap, i: nat, j: nat, ex: set<nat>)
    requires On(v, i, j) && Orderly(v, ex)
    ensures var h, w := v.fl.lists[i][j], Take(v, i, j);
      && Orderly(w, ex + {h}) && h in v.blk && h != 0 && h in v.fl.home
      && w.fl.home == v.fl.home - {h} && Total(w.fl.freeBytes) == Total(v.fl.freeBytes) - SizeOf(v.blk, h)
  {
    OnList(v.fl, v.blk, i, j);
    RemovedOk(v.fl, v.blk, i, j);
    var h, b := v.fl.lists[i][j], Removed(v.fl, v.blk, i, j);
    forall c: nat | c !in ex + {h} ensures HomedAt(v.blk, b, c) { assert HomedAt(v.blk, v.fl, c); }
  }

  lemma GiveOk(v: Heap, h: nat, n: nat, ex: set<nat>)
    requires Orderly(v, ex) && h !in v.fl.home && h != 0
    ensures var w := Give(v, h, n);
      && Orderly(w, ex - {h}) && w.fl.home.Keys == v.fl.home.Keys + {h}
      && Total(w.fl.freeBytes) == Total(v.fl.freeBytes) + n
  {
    var a, t, u := v.fl, v.blk[h := Blk(n, false)], v.blk[h := Blk(n, true)];
    HomeInShape(a, v.blk);
    ListsOkSame(a, v.blk, t);
    AddedOk(a, t, h);
    var b := Added(a, t, h);
    HomeInShape(b, t);
    ListsOkSame(b, t, u);
    forall c: nat | c !in ex - {h} ensures HomedAt(u, b, c) { if c != h { assert HomedAt(v.blk, a, c); } }
  }

  /** The j-th block of list i leaves it, and the new block n of the given size takes its place. */
  ghost function Swap(v: Heap, i: nat, j: nat, n: nat, size: nat): Heap
    requires On(v, i, j)
  {
    var s := v.blk[n := Blk(size, true)];
    Heap(s, Replaced(v.fl, s, i, j, n))
  }

  lemma SwapOk(v: Heap, i: nat, j: nat, n: nat, size: nat, ex: set<nat>)
    requires On(v, i, j) && Orderly(v, ex) && n !in v.blk && n != 0
    ensures var h, w := v.fl.lists[i][j], Swap(v, i, j, n, size);
      && Orderly(w, ex + {h, n}) && h in v.blk && h != 0 && h !in w.fl.home && h != n
      && On(w, i, j) && w.fl.lists[i][j] == n
      && Total(w.fl.freeBytes) == Total(v.fl.freeBytes) - SizeOf(v.blk, h) + size
  {
    OnList(v.fl, v.blk, i, j);
    HomeInShape(v.fl, v.blk);
    var h, s := v.fl.lists[i][j], v.blk[n := Blk(size, true)];
    ListsOkSame(v.fl, v.blk, s);
    ReplacedOk(v.fl, s, i, j, n);
    var b := Replaced(v.fl, s, i, j, n);
    forall c: nat | c !in ex + {h, n} ensures HomedAt(s, b, c) { assert HomedAt(v.blk, v.fl, c); }
  }

  /** GC_get_first_part: block j of list i leaves it; all but its first n pages become a free block. */
  ghost function FirstPart(v: Heap, i: nat, j: nat, n: nat): Heap
    requires On(v, i, j) && n <= SizeOf(v.blk, v.fl.lists[i][j])
  {
    var h := v.fl.lists[i][j];
    var size := SizeOf(v.blk, h);
    if n == size then Take(v, i, j) else Give(Take(v, i, j), h + n, size - n)
  }

  /** What is left of the block h after its first n pages becomes a free block. */
  function FirstShape(s: Shape, h: nat, n: nat): Shape {
    if SizeOf(s, h) <= n then s else s[h + n := Blk(SizeOf(s, h) - n, true)]
  }

  /** The free block h is cut into two at n. */
  function SplitShape(s: Shape, h: nat, n: nat): Shape
    requires h <= n <= h + SizeOf(s, h)
  {
    s[n := Blk(SizeOf(s, h) - (n - h), true)][h := Blk(n - h, true)]
  }

  lemma CarveSteps(s: Shape, h: nat, r: nat, n: nat)
    requires h in s && h <= r && 1 <= n && r + n <= h + SizeOf(s, h)
    ensures FirstShape(if r == h then s else SplitShape(s, h, r), r, n)[r := Blk(n, false)] == Carve(s, h, r, n)
  {
  }

  lemma FirstPartOk(v: Heap, i: nat, j: nat, n: nat, ex: set<nat>)
    requires On(v, i, j) && Orderly(v, ex) && 1 <= n <= SizeOf(v.blk, v.fl.lists[i][j])
    requires var h := v.fl.lists[i][j]; n < SizeOf(v.blk, h) ==> h + n !in v.blk
    ensures var h, w := v.fl.lists[i][j], FirstPart(v, i, j, n);
      && Orderly(w, ex + {h}) && h !in w.fl.home && Total(w.fl.freeBytes) == Total(v.fl.freeBytes) - n
      && w.blk == FirstShape(v.blk, h, n)
  {
    TakeOk(v, i, j, ex);
    var h, size := v.fl.lists[i][j], SizeOf(v.blk, v.fl.lists[i][j]);
    if n != size {
      HomeInShape(v.fl, v.blk);
      GiveOk(Take(v, i, j), h + n, size - n, ex + {h});
      assert Orderly(FirstPart(v, i, j, n), ex + {h} - {h + n});
    }
  }

  /**
   * GC_split_block: block j of list i is cut at n.  The second part takes its place on the list even
   * if that is not the list for its size; the first part goes to the list for its size.
   */
  ghost function Split(v: Heap, i: nat, j: nat, n: nat): Heap
    requires On(v, i, j) && v.fl.lists[i][j] < n < v.fl.lists[i][j] + SizeOf(v.blk, v.fl.lists[i][j])
  {
    var h := v.fl.lists[i][j];
    Give(Swap(v, i, j, n, SizeOf(v.blk, h) - (n - h)), h, n - h)
  }

  /** Where the second part is after the split. */
  ghost function SplitAt(v: Heap, i: nat, j: nat, n: nat): nat
    requires On(v, i, j) && v.fl.lists[i][j] < n
  {
    if FlIndex(n - v.fl.lists[i][j]) == i then j + 1 else j
  }

  lemma SplitOk(v: Heap, i: nat, j: nat, n: nat)
    requires On(v, i, j) && Orderly(v, {}) && n !in v.blk
    requires v.fl.lists[i][j] < n < v.fl.lists[i][j] + SizeOf(v.blk, v.fl.lists[i][j])
    ensures var w, k := Split(v, i, j, n), SplitAt(v, i, j, n);
      && Orderly(w, {n}) && On(w, i, k) && w.fl.lists[i][k] == n && n in w.fl.next && n in w.fl.prev
      && w.blk == SplitShape(v.blk, v.fl.lists[i][j], n)
      && Total(w.fl.freeBytes) == Total(v.fl.freeBytes)
  {
    hide Total, Removed, Replaced, Added, ListsOk, Homed;
    var h := v.fl.lists[i][j];
    var size := SizeOf(v.blk, h) - (n - h);
    SwapOk(v, i, j, n, size, {});
    GiveOk(Swap(v, i, j, n, size), h, n - h, {} + {h, n});
    assert {} + {h, n} - {h} == {n};
    GiveAt(Swap(v, i, j, n, size), h, n - h, i, j);
    OnList(Split(v, i, j, n).fl, Split(v, i, j, n).blk, i, SplitAt(v, i, j, n));
  }

  /** Giving a block to the lists moves the others by at most one place. */
  lemma GiveAt(v: Heap, h: nat, n: nat, i: nat, j: nat)
    requires On(v, i, j)
    ensures var w, k := Give(v, h, n), if FlIndex(n) == i then j + 1 else j;
      On(w, i, k) && w.fl.lists[i][k] == v.fl.lists[i][j]
  {
  }

  lemma GiveSame(v: Heap, h: nat, n: nat)
    requires LengthsOf(v.fl) == Right
    ensures Give(Heap(v.blk[h := Blk(n, false)], v.fl), h, n) == Give(v, h, n)
  {
    assert v.blk[h := Blk(n, false)][h := Blk(n, true)] == v.blk[h := Blk(n, true)];
    assert v.blk[h := Blk(n, false)][h := Blk(n, false)] == v.blk[h := Blk(n, false)];
  }

  lemma AddedSameSize(a: AllLists, s: Shape, t: Shape, h: nat)
    requires LengthsOf(a) == Right && SizeOf(s, h) == SizeOf(t, h)
    ensures Added(a, s, h) == Added(a, t, h)
  {
  }

  /** The order in which GC_split_block sets sizes and flags does not matter. */
  lemma SplitSame(v: Heap, a: AllLists, i: nat, j: nat, n: nat, f: bool)
    requires On(v, i, j) && v.fl.lists[i][j] < n < v.fl.lists[i][j] + SizeOf(v.blk, v.fl.lists[i][j])
    requires var h := v.fl.lists[i][j];
      a == Replaced(v.fl, v.blk[n := Blk(SizeOf(v.blk, h) - (n - h), false)], i, j, n)
    ensures var h := v.fl.lists[i][j];
      var size := SizeOf(v.blk, h) - (n - h);
      var w := Give(Heap(v.blk[n := Blk(size, false)][h := Blk(n - h, f)], a), h, n - h);
      w.(blk := w.blk[n := Blk(size, true)]) == Split(v, i, j, n)
  {
    var h := v.fl.lists[i][j];
    var size := SizeOf(v.blk, h) - (n - h);
    var s, t := v.blk[n := Blk(size, false)], v.blk[n := Blk(size, true)];
    assert a == Replaced(v.fl, t, i, j, n) && LengthsOf(a) == Right;
    hide Replaced;
    AddedSameSize(a, s[h := Blk(n - h, f)][h := Blk(n - h, false)], t[h := Blk(n - h, false)], h);
    hide Added;
    var s1: Shape := s[h := Blk(n - h, f)];
    var s2: Shape := s1[h := Blk(n - h, true)];
    assert s2[n := Blk(size, true)] == t[h := Blk(n - h, true)];
  }

  /** The header of the pages at r says that they are in use. */
  ghost function SetUp(v: Heap, r: nat, n: nat): Heap { v.(blk := v.blk[r := Blk(n, false)]) }

  /** What is known of the j-th block of list i. */
  lemma FreeBlock(v: Heap, own: Owners, i: nat, j: nat)
    requires On(v, i, j) && HeapOk(v, own)
    ensures var h := v.fl.lists[i][j];
      IsFree(v.blk, h) && FlIndex(v.blk[h].sz) == i && 1 <= v.blk[h].sz && h in v.fl.next && h in v.fl.prev && h != 0
      && v.fl.next[h] == NextOf(v.fl.lists[i], j) && v.fl.prev[h] == PrevOf(v.fl.lists[i], j)
      && forall b: nat :: b in v.blk && h <= b < h + v.blk[h].sz ==> b == h
  {
    OnList(v.fl, v.blk, i, j);
    assert HomedAt(v.blk, v.fl, v.fl.lists[i][j]);
    NoneWithin(v.blk, own, v.fl.lists[i][j]);
  }

  /** Taking pages r .. r + n out of block j of list i carves them out of the partition of the heap. */
  lemma CarveOk(v: Heap, own: Owners, i: nat, j: nat, r: nat, n: nat, w: Heap)
    requires On(v, i, j) && HeapOk(v, own) && v.fl.lists[i][j] <= r && 1 <= n
    requires r + n <= v.fl.lists[i][j] + SizeOf(v.blk, v.fl.lists[i][j])
    requires Orderly(w, {r}) && r !in w.fl.home
    requires var h := v.fl.lists[i][j]; h in v.blk && w.blk[r := Blk(n, false)] == Carve(v.blk, h, r, n)
    ensures HeapOk(SetUp(w, r, n), CarveOwners(v.blk, own, v.fl.lists[i][j], r, n))
    ensures CarveOwners(v.blk, own, v.fl.lists[i][j], r, n).Keys == own.Keys
  {
    FreeBlock(v, own, i, j);
    var h, x := v.fl.lists[i][j], SetUp(w, r, n);
    CarveTiled(v.blk, own, h, r, n);
    CarveCoalesced(v.blk, own, h, r, n);
    HomeInShape(w.fl, w.blk);
    ListsOkSame(w.fl, w.blk, x.blk);
    forall c: nat ensures HomedAt(x.blk, x.fl, c) { if c != r { assert HomedAt(w.blk, w.fl, c); } }
  }

  ghost predicate CanPart(v: Heap, i: nat, j: nat, r: nat) {
    On(v, i, j) && v.fl.lists[i][j] <= r && (r != v.fl.lists[i][j] ==> v.fl.lists[i][j] in v.blk && v.fl.lists[i][j] in v.fl.next && v.fl.lists[i][j] in v.fl.prev && r < v.fl.lists[i][j] + SizeOf(v.blk, v.fl.lists[i][j]))
  }

  /** What lies before r in block j of list i is split off. */
  ghost function Parted(v: Heap, i: nat, j: nat, r: nat): Heap
    requires CanPart(v, i, j, r)
  {
    if r == v.fl.lists[i][j] then v else Split(v, i, j, r)
  }

  ghost function PartedAt(v: Heap, i: nat, j: nat, r: nat): nat
    requires CanPart(v, i, j, r)
  {
    if r == v.fl.lists[i][j] then j else SplitAt(v, i, j, r)
  }

  ghost predicate CanAllocate(v: Heap, i: nat, j: nat, r: nat, n: nat) {
    && CanPart(v, i, j, r) && On(Parted(v, i, j, r), i, PartedAt(v, i, j, r))
    && var w, k := Parted(v, i, j, r), PartedAt(v, i, j, r);
      w.fl.lists[i][k] == r && r in w.blk && r in w.fl.next && r in w.fl.prev && 1 <= n <= SizeOf(w.blk, r)
  }

  /** The steps of an allocation: split off what lies before r, take n pages, set up the header. */
  ghost function Allocated(v: Heap, i: nat, j: nat, r: nat, n: nat): Heap
    requires CanAllocate(v, i, j, r, n)
  {
    SetUp(FirstPart(Parted(v, i, j, r), i, PartedAt(v, i, j, r), n), r, n)
  }

  lemma AllocationOk(v: Heap, own: Owners, i: nat, j: nat, r: nat, n: nat)
    requires On(v, i, j) && HeapOk(v, own) && v.fl.lists[i][j] <= r && 1 <= n
    requires r + n <= v.fl.lists[i][j] + SizeOf(v.blk, v.fl.lists[i][j])
    ensures CanAllocate(v, i, j, r, n) && v.fl.lists[i][j] in v.blk
    ensures var h, w := v.fl.lists[i][j], Allocated(v, i, j, r, n);
      && w.blk == Carve(v.blk, h, r, n) && HeapOk(w, CarveOwners(v.blk, own, h, r, n))
      && Total(w.fl.freeBytes) == Total(v.fl.freeBytes) - n && CarveOwners(v.blk, own, h, r, n).Keys == own.Keys
  {
    FreeBlock(v, own, i, j);
    var h := v.fl.lists[i][j];
    CarveSteps(v.blk, h, r, n);
    assert Orderly(v, {});
    hide Split, FirstPart, Total, Orderly, FirstShape, Carve, Homed, ListsOk;
    if r == h {
      FirstPartOk(v, i, j, n, {});
      assert {} + {r} == {r};
    } else {
      SplitOk(v, i, j, r);
      FirstPartOk(Parted(v, i, j, r), i, PartedAt(v, i, j, r), n, {r});
      assert {r} + {r} == {r};
    }
    CarveOk(v, own, i, j, r, n, FirstPart(Parted(v, i, j, r), i, PartedAt(v, i, j, r), n));
  }

  /** A completely black-listed free block is given up, one page at a time. */
  ghost function Dropped(v: Heap, i: nat, j: nat): Heap
    requires On(v, i, j) && v.fl.lists[i][j] in v.blk
  {
    Heap(Shatter(v.blk, v.fl.lists[i][j]), Removed(v.fl, v.blk, i, j))
  }

  lemma DropOk(v: Heap, own: Owners, i: nat, j: nat)
    requires On(v, i, j) && HeapOk(v, own)
    ensures var h := v.fl.lists[i][j];
      && IsFree(v.blk, h) && h in v.fl.next && h in v.fl.prev
      && HeapOk(Dropped(v, i, j), ShatterOwners(v.blk, own, h)) && ShatterOwners(v.blk, own, h).Keys == own.Keys
      && DroppedFrom(v.blk, Dropped(v, i, j).blk)
      && Total(Dropped(v, i, j).fl.freeBytes) == Total(v.fl.freeBytes) - SizeOf(v.blk, h)
  {
    var h, w := v.fl.lists[i][j], Take(v, i, j);
    FreeBlock(v, own, i, j);
    ShatterOk(v.blk, own, h);
    TakeOk(v, i, j, {});
    var x := Dropped(v, i, j);
    DroppedHomes(v, own, h, w, x.blk);
    ListsOkSame(w.fl, w.blk, x.blk);
  }

  lemma DroppedHomes(v: Heap, own: Owners, h: nat, w: Heap, t: Shape)
    requires Tiled(v.blk, own) && IsFree(v.blk, h) && Orderly(w, {} + {h}) && h !in w.fl.home && w.blk == v.blk
    requires t == Shatter(v.blk, h)
    ensures Homed(t, w.fl, {})
    ensures forall x: nat :: x in w.fl.home ==> x in t && SizeOf(t, x) == SizeOf(w.blk, x)
  {
    NoneWithin(v.blk, own, h);
    HomeInShape(w.fl, w.blk);
    forall c: nat ensures HomedAt(t, w.fl, c) { if c != h { assert HomedAt(w.blk, w.fl, c); } }
  }

  lemma ShatterIs(s: Shape, h: nat, t: Shape)
    requires h in s
    requires forall b: nat :: b in t <==> b in s || h <= b < h + s[h].sz
    requires forall b: nat :: b in t ==> t[b] == if h <= b < h + s[h].sz then Blk(1, false) else s[b]
    ensures t == Shatter(s, h)
  {
    var u := Shatter(s, h);
    forall b: nat ensures b in t <==> b in u { assert Inside(s, h, b) <==> h <= b < h + s[h].sz; }
    assert t.Keys == u.Keys;
  }

  // ---------- the search ----------

  /** The search of one list may take block b. */
  ghost predicate Eligible(env: Env, q: Request, maySplit: bool, s: Shape, b: nat) {
    b in s && (maySplit || s[b].sz == q.needed) && Usable(env, q, b, s[b].sz)
  }

  /** Block b is large enough and clear of the black lists at its start. */
  ghost predicate Obvious(env: Env, q: Request, maySplit: bool, s: Shape, b: nat) {
    maySplit && b in s && q.needed <= s[b].sz && Clean(env.bl, b, q.needed)
  }

  /** The search has reached place j: it has missed no block, or is about to find one. */
  ghost predicate Searched(env: Env, q: Request, maySplit: bool, s: Shape, l: seq<nat>, j: nat) {
    || (forall k: nat :: k < j && k < |l| ==> !Eligible(env, q, maySplit, s, l[k]))
    || (j < |l| && Obvious(env, q, maySplit, s, l[j]))
  }

  lemma ObviousEligible(env: Env, q: Request, maySplit: bool, s: Shape, b: nat)
    requires Obvious(env, q, maySplit, s, b) && 1 <= q.needed
    ensures Eligible(env, q, maySplit, s, b)
  {
    assert Clean(env.bl, b, Effective(q));
    assert b <= b && b + q.needed <= b + s[b].sz;
  }

  lemma PassOver(env: Env, q: Request, maySplit: bool, s: Shape, l: seq<nat>, j: nat)
    requires j < |l| && Searched(env, q, maySplit, s, l, j) && !Eligible(env, q, maySplit, s, l[j]) && 1 <= q.needed
    ensures Searched(env, q, maySplit, s, l, j + 1)
    ensures forall k: nat :: k <= j ==> !Eligible(env, q, maySplit, s, l[k])
  {
    if Obvious(env, q, maySplit, s, l[j]) { ObviousEligible(env, q, maySplit, s, l[j]); }
  }

  /**
   * What GC_allochblk_nth did: it may have dropped blocks, which made s into before.  It fails (r is 0)
   * only if no block on list n would do.  Otherwise it took the pages at r out of the block f of the
   * list, at the first place clear of the black lists.
   */
  ghost predicate NthOutcome(env: Env, q: Request, n: nat, maySplit: bool, s: Shape, before: Shape, f: nat, r: nat, after: Shape) {
    && DroppedFrom(s, before) && (!Tests(env, q) || env.findLeak ==> before == s)
    && if r == 0 then
         after == before
         && forall b: nat :: IsFree(before, b) && FlIndex(before[b].sz) == n ==> !Eligible(env, q, maySplit, before, b)
       else
         Granted(env, q, before, f, r) && FlIndex(before[f].sz) == n && (maySplit || before[f].sz == q.needed)
         && after == Carve(before, f, r, q.needed)
  }

  /** The search so far has only dropped blocks, and only if it is allowed to. */
  ghost predicate OnlyDropped(env: Env, q: Request, s: Shape, t: Shape) {
    DroppedFrom(s, t) && (!Tests(env, q) || env.findLeak ==> t == s)
  }

  /**
   * The loop of GC_allochblk_nth, started in a heap with headers s and these pages, stands at hbp, the
   * j-th block of list n; 0 is the end of the list.
   */
  ghost predicate Searching(env: Env, q: Request, maySplit: bool, n: nat, s: Shape, pages: set<nat>,
                            v: Heap, own: Owners, free: int, hbp: nat, j: nat) {
    && HeapOk(v, own) && free == Total(v.fl.freeBytes) && own.Keys == pages
    && LengthsOf(v.fl) == Right && n <= N_HBLK_FLS && j <= |v.fl.lists[n]| && 1 <= q.needed
    && hbp == (if j < |v.fl.lists[n]| then v.fl.lists[n][j] else 0)
    && OnlyDropped(env, q, s, v.blk) && Searched(env, q, maySplit, v.blk, v.fl.lists[n], j)
  }

  lemma SearchStarts(env: Env, q: Request, maySplit: bool, n: nat, v: Heap, own: Owners, free: int)
    requires HeapOk(v, own) && free == Total(v.fl.freeBytes) && n <= N_HBLK_FLS && 1 <= q.needed
    ensures LengthsOf(v.fl) == Right
    ensures Searching(env, q, maySplit, n, v.blk, own.Keys, v, own, free, v.fl.heads[n], 0)
  {
    HeapLengths(v, own, n);
  }

  /** When the search of a list ends without success, no block on it would have done. */
  lemma SearchEnds(env: Env, q: Request, maySplit: bool, n: nat, s: Shape, pages: set<nat>,
                   v: Heap, own: Owners, free: int, j: nat)
    requires Searching(env, q, maySplit, n, s, pages, v, own, free, 0, j)
    ensures HeapOk(v, own) && free == Total(v.fl.freeBytes) && own.Keys == pages
    ensures NthOutcome(env, q, n, maySplit, s, v.blk, 0, 0, v.blk) && n < |v.fl.lists| && j == |v.fl.lists[n]|
  {
    if j < |v.fl.lists[n]| { FreeBlock(v, own, n, j); }
    forall b: nat | IsFree(v.blk, b) && FlIndex(v.blk[b].sz) == n ensures !Eligible(env, q, maySplit, v.blk, b) {
      assert HomedAt(v.blk, v.fl, b);
      var k := Position(v.fl, v.blk, b);
    }
  }

  /** Dropping block j does not bring back the blocks before it. */
  lemma DropSearched(env: Env, q: Request, maySplit: bool, v: Heap, own: Owners, n: nat, j: nat)
    requires HeapOk(v, own) && On(v, n, j) && v.fl.lists[n][j] in v.blk && 1 <= q.needed
    requires Searched(env, q, maySplit, v.blk, v.fl.lists[n], j)
    requires !Eligible(env, q, maySplit, v.blk, v.fl.lists[n][j])
    ensures var w := Dropped(v, n, j);
      |w.fl.lists[n]| == |v.fl.lists[n]| - 1 && Searched(env, q, maySplit, w.blk, w.fl.lists[n], j)
  {
    var w, l, h := Dropped(v, n, j), v.fl.lists[n], v.fl.lists[n][j];
    PassOver(env, q, maySplit, v.blk, l, j);
    FreeBlock(v, own, n, j);
    assert ListOk(v.fl, v.blk, n);
    RemovedAt(l, j);
    forall k: nat | k < j && k < |w.fl.lists[n]| ensures !Eligible(env, q, maySplit, w.blk, w.fl.lists[n][k]) {
      FreeBlock(v, own, n, k);
      assert w.fl.lists[n][k] == l[k] && l[k] != h;
      assert w.blk[l[k]] == v.blk[l[k]];
    }
  }

  /** What the search needs to know of the j-th block of list n and the one after it. */
  lemma AtPlace(v: Heap, own: Owners, n: nat, j: nat)
    requires HeapOk(v, own) && On(v, n, j)
    ensures var h := v.fl.lists[n][j];
      && IsFree(v.blk, h) && h != 0 && h in v.fl.next && v.fl.next[h] == NextOf(v.fl.lists[n], j)
      && (v.fl.next[h] != 0 ==> v.fl.next[h] in v.blk) && (v.fl.next[h] == 0 <==> j + 1 == |v.fl.lists[n]|)
  {
    FreeBlock(v, own, n, j);
    if j + 1 < |v.fl.lists[n]| { FreeBlock(v, own, n, j + 1); }
  }

  /** The search of list n after its j-th block was given up: it goes on behind the block before it, or starts again. */
  ghost predicate AfterDrop(env: Env, q: Request, maySplit: bool, n: nat, s: Shape, pages: set<nat>, v: Heap, own: Owners, free: int,
                            previous: nat, j: nat, ls0: seq<seq<nat>>, count0: nat, ds: seq<nat>, count: nat) {
    && Drops(s, ds, v.blk) && Passing(env, q, maySplit, ls0, count0, ds, v.blk, v.fl.lists, n, j, count)
    && (previous == 0 <==> j == 0)
    && if previous == 0 then HeapOk(v, own) && free == Total(v.fl.freeBytes) && own.Keys == pages && OnlyDropped(env, q, s, v.blk)
       else previous in v.fl.next && Searching(env, q, maySplit, n, s, pages, v, own, free, v.fl.next[previous], j)
  }

  lemma GoesOnAfterDrop(env: Env, q: Request, maySplit: bool, n: nat, s: Shape, pages: set<nat>, v: Heap, own: Owners, free: int,
                        hbp: nat, j: nat, ls0: seq<seq<nat>>, count0: nat, ds: seq<nat>, count: nat)
    requires Searching(env, q, maySplit, n, s, pages, v, own, free, hbp, j) && hbp != 0 && 0 < count && count % 4 == 0
    requires Tests(env, q) && !env.findLeak && !Eligible(env, q, maySplit, v.blk, hbp) && Drops(s, ds, v.blk)
    requires n < |v.fl.lists| && AllBlackAt(env, q, maySplit, v.blk, v.fl.lists[n], j)
    requires Passing(env, q, maySplit, ls0, count0, ds, v.blk, v.fl.lists, n, j, count - 1)
    ensures On(v, n, j) && v.fl.lists[n][j] == hbp && hbp in v.blk && hbp in v.fl.next && hbp in v.fl.prev
    ensures var w, o := Dropped(v, n, j), ShatterOwners(v.blk, own, hbp);
      && |w.fl.lists| == |v.fl.lists| && |w.fl.lists[n]| == |v.fl.lists[n]| - 1 && j <= |w.fl.lists[n]|
      && AfterDrop(env, q, maySplit, n, s, pages, w, o, free - v.blk[hbp].sz, v.fl.prev[hbp], j, ls0, count0, ds + [hbp], count)
  {
    DropSearching(env, q, maySplit, n, s, pages, v, own, free, hbp, j);
    assert HeapOk(v, own);
    hide HeapOk, Total, OnlyDropped, Searching, Eligible, Dropped, Drops, Shatter, Passing, AllBlackAt, Tests;
    DroppedShape(v, own, n, j);
    DropsOne(s, ds, v.blk, hbp);
    PassDrop(env, q, maySplit, ls0, count0, ds, v, own, n, j, count - 1);
    DroppedPrevious(v, own, n, j);
  }

  lemma DroppedPrevious(v: Heap, own: Owners, n: nat, j: nat)
    requires HeapOk(v, own) && On(v, n, j) && v.fl.lists[n][j] in v.blk
    ensures var h, w := v.fl.lists[n][j], Dropped(v, n, j);
      h in v.fl.prev && if j == 0 then v.fl.prev[h] == 0
      else On(w, n, j - 1) && v.fl.prev[h] == w.fl.lists[n][j - 1] && v.fl.prev[h] != 0
  {
    FreeBlock(v, own, n, j);
    if 0 < j { FreeBlock(v, own, n, j - 1); }
  }

  lemma HeapLengths(v: Heap, own: Owners, n: nat)
    requires HeapOk(v, own) && n <= N_HBLK_FLS
    ensures LengthsOf(v.fl) == Right && v.fl.heads[n] == if v.fl.lists[n] == [] then 0 else v.fl.lists[n][0]
  {
    assert ListOk(v.fl, v.blk, n);
  }

  /** What the search does with a block: go on, allocate at r, or go on and count it as completely black-listed. */
  datatype Verdict = GoOn | AllocateFrom(r: nat) | AllBlack

  lemma NotClean(env: Env, q: Request, maySplit: bool, s: Shape, b: nat, r: nat)
    requires b in s && Tests(env, q) && !Punts(env, q, s[b].sz) && r + q.needed > b + s[b].sz
    requires forall p: nat :: b <= p < r ==> !Clean(env.bl, p, Effective(q))
    ensures !Eligible(env, q, maySplit, s, b)
  {
  }

  lemma GrantedAt(env: Env, q: Request, s: Shape, b: nat, r: nat)
    requires IsFree(s, b) && q.needed <= s[b].sz && Tests(env, q) && b <= r
    requires forall p: nat :: b <= p < r ==> !Clean(env.bl, p, Effective(q))
    requires r + q.needed <= b + s[b].sz ==> Clean(env.bl, r, Effective(q))
    ensures r + q.needed <= b + s[b].sz ==> Granted(env, q, s, b, r)
    ensures r + q.needed > b + s[b].sz && Punts(env, q, s[b].sz) ==> Granted(env, q, s, b, b)
  {
  }

  /** The pages that were granted are taken, which ends the search. */
  lemma SearchSucceeds(env: Env, q: Request, n: nat, maySplit: bool, s: Shape, before: Shape, f: nat, r: nat)
    requires OnlyDropped(env, q, s, before) && Granted(env, q, before, f, r) && FlIndex(before[f].sz) == n && r != 0
    requires maySplit || before[f].sz == q.needed
    ensures NthOutcome(env, q, n, maySplit, s, before, f, r, Carve(before, f, r, q.needed))
  {
  }

  lemma DroppedMore(env: Env, q: Request, s: Shape, t: Shape, u: Shape)
    requires OnlyDropped(env, q, s, t) && DroppedFrom(t, u) && Tests(env, q) && !env.findLeak
    ensures OnlyDropped(env, q, s, u)
  {
    DroppedFromTransitive(s, t, u);
  }

  lemma SearchAgain(env: Env, q: Request, n: nat, maySplit: bool, s: Shape, t: Shape, before: Shape, f: nat, r: nat, after: Shape,
                    ds: seq<nat>, es: seq<nat>)
    requires OnlyDropped(env, q, s, t) && Tests(env, q) && !env.findLeak
    requires NthOutcome(env, q, n, maySplit, t, before, f, r, after) && Drops(s, ds, t) && Drops(t, es, before)
    ensures NthOutcome(env, q, n, maySplit, s, before, f, r, after) && Drops(s, ds + es, before)
  {
    DroppedFromTransitive(s, t, before);
    DropsJoin(s, ds, t, es, before);
    hide Drops;
  }

  /** Giving up the j-th block leaves the search at the block after it. */
  lemma DropSearching(env: Env, q: Request, maySplit: bool, n: nat, s: Shape, pages: set<nat>,
                      v: Heap, own: Owners, free: int, hbp: nat, j: nat)
    requires Searching(env, q, maySplit, n, s, pages, v, own, free, hbp, j) && hbp != 0
    requires Tests(env, q) && !env.findLeak && !Eligible(env, q, maySplit, v.blk, hbp)
    ensures On(v, n, j) && v.fl.lists[n][j] == hbp && hbp in v.blk && hbp in v.fl.next && hbp in v.fl.prev
    ensures var w, o, free' := Dropped(v, n, j), ShatterOwners(v.blk, own, hbp), free - v.blk[hbp].sz;
      && HeapOk(w, o) && free' == Total(w.fl.freeBytes) && o.Keys == pages && OnlyDropped(env, q, s, w.blk)
      && |w.fl.lists| == |v.fl.lists| && |w.fl.lists[n]| == |v.fl.lists[n]| - 1
      && (v.fl.prev[hbp] != 0 ==> v.fl.prev[hbp] in w.fl.next)
      && (v.fl.prev[hbp] != 0 ==> Searching(env, q, maySplit, n, s, pages, w, o, free', w.fl.next[v.fl.prev[hbp]], j))
  {
    hide HeapOk, Total, OnlyDropped, Searched, Dropped, ShatterOwners, Eligible, Tests, DroppedFrom;
    DropOk(v, own, n, j);
    var w, o := Dropped(v, n, j), ShatterOwners(v.blk, own, hbp);
    DropSearched(env, q, maySplit, v, own, n, j);
    DroppedMore(env, q, s, v.blk, w.blk);
    HeapLengths(w, o, n);
    DroppedPrevious(v, own, n, j);
    if 0 < j { AtPlace(w, o, n, j - 1); }
  }

  /** What giving up the j-th block of list i does to the partition. */
  lemma DroppedShape(v: Heap, own: Owners, i: nat, j: nat)
    requires HeapOk(v, own) && On(v, i, j)
    ensures var h := v.fl.lists[i][j]; IsFree(v.blk, h) && Dropped(v, i, j).blk == Shatter(v.blk, h)
  {
    FreeBlock(v, own, i, j);
  }

  // ---------- which block of a list is taken ----------

  /** The next block on the list is obviously better than the k-th: smaller, large enough, and clear of the black lists. */
  ghost predicate Skips(env: Env, q: Request, s: Shape, l: seq<nat>, k: nat) {
    && k + 1 < |l| && l[k] in s && l[k + 1] in s
    && q.needed != s[l[k]].sz && q.needed <= s[l[k + 1]].sz < s[l[k]].sz && Clean(env.bl, l[k + 1], q.needed)
  }

  /** The search goes past the k-th block of the list. */
  ghost predicate PassedOver(env: Env, q: Request, maySplit: bool, s: Shape, l: seq<nat>, k: nat) {
    k < |l| ==> !Eligible(env, q, maySplit, s, l[k]) || Skips(env, q, s, l, k)
  }

  /** The search meets the k-th block as completely black-listed, and counts it. */
  ghost predicate AllBlackAt(env: Env, q: Request, maySplit: bool, s: Shape, l: seq<nat>, k: nat) {
    && k < |l| && l[k] in s && q.needed == 1 <= s[l[k]].sz && (maySplit || s[l[k]].sz == 1) && !Skips(env, q, s, l, k)
    && Tests(env, q) && !env.findLeak && NoCleanStart(env, q, l[k], s[l[k]].sz) && !Punts(env, q, s[l[k]].sz)
  }

  /** How many of the first j blocks are met as completely black-listed. */
  ghost function BlackIn(env: Env, q: Request, maySplit: bool, s: Shape, l: seq<nat>, j: nat): nat {
    if j == 0 then 0 else BlackIn(env, q, maySplit, s, l, j - 1) + if AllBlackAt(env, q, maySplit, s, l, j - 1) then 1 else 0
  }

  /** What is left of a list when the blocks ds are gone. */
  function Without(l: seq<nat>, ds: seq<nat>): seq<nat> {
    if l == [] then []
    else if l[|l| - 1] in ds then Without(l[..|l| - 1], ds)
    else Without(l[..|l| - 1], ds) + [l[|l| - 1]]
  }

  ghost predicate ListsWithout(ls: seq<seq<nat>>, ds: seq<nat>, ms: seq<seq<nat>>) {
    |ms| == |ls| && forall i: nat :: i < |ls| ==> ms[i] == Without(ls[i], ds)
  }

  /**
   * The search of list n, which began with the lists ls0 and the count count0, has reached place j: it has gone past
   * every block before, and has given up every fourth of those that it met as completely black-listed.
   */
  ghost predicate Passing(env: Env, q: Request, maySplit: bool, ls0: seq<seq<nat>>, count0: nat, ds: seq<nat>,
                          s: Shape, ls: seq<seq<nat>>, n: nat, j: nat, count: nat) {
    && n < |ls| && ListsWithout(ls0, ds, ls)
    && (forall k: nat :: k < j ==> PassedOver(env, q, maySplit, s, ls[n], k))
    && |ds| == count / 4 - count0 / 4 && count0 + |ds| + BlackIn(env, q, maySplit, s, ls[n], j) <= count
  }

  /** f is the first block of the list that the search does not go past. */
  ghost predicate FirstFit(env: Env, q: Request, maySplit: bool, s: Shape, l: seq<nat>, f: nat) {
    exists j: nat :: j < |l| && l[j] == f && !Skips(env, q, s, l, j) && forall k: nat :: k < j ==> PassedOver(env, q, maySplit, s, l, k)
  }

  lemma {:induction false} WithoutNone(l: seq<nat>, ds: seq<nat>)
    requires forall x :: x in l ==> x !in ds
    ensures Without(l, ds) == l
  {
    if l != [] {
      WithoutNone(l[..|l| - 1], ds);
      assert l[|l| - 1] in l;
    }
  }

  lemma {:induction false} WithoutJoin(l: seq<nat>, ds: seq<nat>, es: seq<nat>)
    ensures Without(Without(l, ds), es) == Without(l, ds + es)
  {
    if l != [] {
      var m := Without(l[..|l| - 1], ds);
      WithoutJoin(l[..|l| - 1], ds, es);
      if l[|l| - 1] !in ds { assert (m + [l[|l| - 1]])[..|m|] == m; }
    }
  }

  lemma {:induction false} WithoutOne(l: seq<nat>, j: nat)
    requires j < |l| && NoDup(l)
    ensures Without(l, [l[j]]) == RemoveAt(l, j)
  {
    var m, x := l[..|l| - 1], l[|l| - 1];
    if j == |l| - 1 {
      assert l[..j] + l[j + 1..] == m;
      WithoutNone(m, [x]);
    } else {
      WithoutOne(m, j);
      assert RemoveAt(l, j) == RemoveAt(m, j) + [x];
    }
  }

  lemma PassingStarts(env: Env, q: Request, maySplit: bool, s: Shape, ls: seq<seq<nat>>, n: nat, count: nat)
    requires n < |ls|
    ensures Passing(env, q, maySplit, ls, count, [], s, ls, n, 0, count)
  {
    forall i: nat | i < |ls| ensures ls[i] == Without(ls[i], []) { WithoutNone(ls[i], []); }
  }

  lemma PassOne(env: Env, q: Request, maySplit: bool, ls0: seq<seq<nat>>, count0: nat, ds: seq<nat>,
                s: Shape, ls: seq<seq<nat>>, n: nat, j: nat, count: nat)
    requires Passing(env, q, maySplit, ls0, count0, ds, s, ls, n, j, count) && PassedOver(env, q, maySplit, s, ls[n], j)
    ensures !AllBlackAt(env, q, maySplit, s, ls[n], j) ==> Passing(env, q, maySplit, ls0, count0, ds, s, ls, n, j + 1, count)
    ensures (count + 1) % 4 != 0 ==> Passing(env, q, maySplit, ls0, count0, ds, s, ls, n, j + 1, count + 1)
  {
    hide AllBlackAt, PassedOver, ListsWithout;
  }

  lemma PassingJoin(env: Env, q: Request, maySplit: bool, ls0: seq<seq<nat>>, c0: nat, ds: seq<nat>, s: Shape, ls: seq<seq<nat>>, c: nat,
                    es: seq<nat>, t: Shape, ms: seq<seq<nat>>, n: nat, k: nat, d: nat)
    requires Passing(env, q, maySplit, ls0, c0, ds, s, ls, n, 0, c) && Passing(env, q, maySplit, ls, c, es, t, ms, n, k, d)
    ensures Passing(env, q, maySplit, ls0, c0, ds + es, t, ms, n, k, d)
  {
    ListsJoin(ls0, ds, ls, es, ms);
    hide PassedOver, BlackIn;
  }

  lemma ListsJoin(ls0: seq<seq<nat>>, ds: seq<nat>, ls: seq<seq<nat>>, es: seq<nat>, ms: seq<seq<nat>>)
    requires ListsWithout(ls0, ds, ls) && ListsWithout(ls, es, ms)
    ensures ListsWithout(ls0, ds + es, ms)
  {
    forall i: nat | i < |ls0| ensures ms[i] == Without(ls0[i], ds + es) { WithoutJoin(ls0[i], ds, es); }
  }

  /** What the search of one list adds to the searches before it. */
  lemma PassingGives(env: Env, q: Request, maySplit: bool, ls0: seq<seq<nat>>, c0: nat, ds: seq<nat>, ls: seq<seq<nat>>, c: nat,
                     es: seq<nat>, s: Shape, at: seq<seq<nat>>, n: nat, j: nat, d: nat, f: nat)
    requires ListsWithout(ls0, ds, ls) && |ds| == c / 4 - c0 / 4 && Passing(env, q, maySplit, ls, c, es, s, at, n, j, d)
    ensures ListsWithout(ls0, ds + es, at) && |ds + es| == d / 4 - c0 / 4
    ensures j < |at[n]| && at[n][j] == f && !Skips(env, q, s, at[n], j) ==> FirstFit(env, q, maySplit, s, Without(ls0[n], ds + es), f)
  {
    ListsJoin(ls0, ds, ls, es, at);
    assert at[n] == Without(ls0[n], ds + es);
    hide PassedOver, Skips, Without, ListsWithout;
  }

  /** What giving up the j-th block of list n does to the lists. */
  lemma DroppedLists(v: Heap, own: Owners, n: nat, j: nat)
    requires HeapOk(v, own) && On(v, n, j) && v.fl.lists[n][j] in v.blk
    ensures ListsWithout(v.fl.lists, [v.fl.lists[n][j]], Dropped(v, n, j).fl.lists)
    ensures forall k: nat :: k < j ==> v.fl.lists[n][k] in v.blk && v.fl.lists[n][k] != v.fl.lists[n][j]
    ensures forall k: nat :: k < |v.fl.lists[n]| && v.fl.lists[n][k] != v.fl.lists[n][j] ==>
      v.fl.lists[n][k] in v.blk && v.fl.lists[n][k] in Dropped(v, n, j).blk
      && Dropped(v, n, j).blk[v.fl.lists[n][k]] == v.blk[v.fl.lists[n][k]]
  {
    var h := v.fl.lists[n][j];
    assert ListOk(v.fl, v.blk, n);
    FreeBlock(v, own, n, j);
    WithoutOne(v.fl.lists[n], j);
    forall i: nat | i < |v.fl.lists| && i != n ensures v.fl.lists[i] == Without(v.fl.lists[i], [h]) {
      forall x | x in v.fl.lists[i] ensures x !in [h] {
        var k :| 0 <= k < |v.fl.lists[i]| && v.fl.lists[i][k] == x;
        OnList(v.fl, v.blk, i, k);
        OnList(v.fl, v.blk, n, j);
      }
      WithoutNone(v.fl.lists[i], [h]);
    }
    forall k: nat | k < |v.fl.lists[n]| && v.fl.lists[n][k] != h
      ensures var x := v.fl.lists[n][k]; x in v.blk && x in Dropped(v, n, j).blk && Dropped(v, n, j).blk[x] == v.blk[x]
    {
      FreeBlock(v, own, n, k);
    }
  }

  /** A block that is completely black-listed, and not skipped for a better one, is given up. */
  lemma PassDrop(env: Env, q: Request, maySplit: bool, ls0: seq<seq<nat>>, count0: nat, ds: seq<nat>, v: Heap, own: Owners, n: nat, j: nat, count: nat)
    requires HeapOk(v, own) && On(v, n, j) && v.fl.lists[n][j] in v.blk
    requires Passing(env, q, maySplit, ls0, count0, ds, v.blk, v.fl.lists, n, j, count) && (count + 1) % 4 == 0
    requires AllBlackAt(env, q, maySplit, v.blk, v.fl.lists[n], j)
    ensures var w := Dropped(v, n, j); Passing(env, q, maySplit, ls0, count0, ds + [v.fl.lists[n][j]], w.blk, w.fl.lists, n, j, count + 1)
  {
    var l, w := v.fl.lists[n], Dropped(v, n, j);
    DroppedLists(v, own, n, j);
    assert w.fl.lists[n] == RemoveAt(l, j);
    ListsJoin(ls0, ds, v.fl.lists, [l[j]], w.fl.lists);
    NotSkippedFor(env, q, maySplit, v.blk, l, j);
    hide ListsWithout, Dropped, HeapOk, On;
    PassedWithout(env, q, maySplit, v.blk, l, w.blk, j, j);
  }

  lemma NotSkippedFor(env: Env, q: Request, maySplit: bool, s: Shape, l: seq<nat>, j: nat)
    requires AllBlackAt(env, q, maySplit, s, l, j)
    ensures 0 < j ==> !Skips(env, q, s, l, j - 1)
  {
    var h := l[j];
    assert Effective(q) == q.needed && h + q.needed <= h + s[h].sz && !Clean(env.bl, h, Effective(q));
  }

  /** Without the j-th block, which skipped nothing, the blocks before it are passed over as before. */
  lemma {:induction false} PassedWithout(env: Env, q: Request, maySplit: bool, s: Shape, l: seq<nat>, t: Shape, j: nat, i: nat)
    requires i <= j < |l| && (0 < j ==> !Skips(env, q, s, l, j - 1))
    requires forall k: nat :: k < j ==> l[k] in s && l[k] in t && t[l[k]] == s[l[k]] && PassedOver(env, q, maySplit, s, l, k)
    ensures forall k: nat :: k < i ==> PassedOver(env, q, maySplit, t, RemoveAt(l, j), k)
    ensures BlackIn(env, q, maySplit, t, RemoveAt(l, j), i) <= BlackIn(env, q, maySplit, s, l, i)
  {
    if 0 < i {
      PassedWithout(env, q, maySplit, s, l, t, j, i - 1);
      assert RemoveAt(l, j)[i - 1] == l[i - 1];
      if i < j { assert RemoveAt(l, j)[i] == l[i]; }
      hide Clean, NoCleanStart, Punts, Tests, Usable;
      assert PassedOver(env, q, maySplit, s, l, i - 1);
    }
  }

  // ---------- the search of all lists ----------

  /** After the exact pass and the lists before i, no free block met so far would do. */
  ghost predicate NoneBefore(env: Env, q: Request, s: Shape, i: nat) {
    forall b: nat :: IsFree(s, b) && (FlIndex(s[b].sz) < i || s[b].sz == q.needed) ==> !Usable(env, q, b, s[b].sz)
  }

  /**
   * What GC_allochblk did.  It fails only if no free block that it may split, and no exact match, can
   * serve the request.  It splits a block only if there is no exact match, and then one on the first list, up to
   * the limit, that holds a usable block.
   */
  ghost predicate AllocOutcome(env: Env, q: Request, limit: nat, s: Shape, before: Shape, f: nat, r: nat, after: Shape) {
    && OnlyDropped(env, q, s, before)
    && if r == 0 then after == before && NoneBefore(env, q, before, limit + 1)
       else
         Granted(env, q, before, f, r) && after == Carve(before, f, r, q.needed)
         && (before[f].sz != q.needed ==> FlIndex(before[f].sz) <= limit && NoneBefore(env, q, before, FlIndex(before[f].sz)))
  }

  /** The list where the search with splitting starts. */
  function StartList(needed: nat): nat {
    if FlIndex(needed) < UNIQUE_THRESHOLD then FlIndex(needed) + 1 else FlIndex(needed)
  }

  /** The exact pass covers the lists before StartList: their other blocks are too small. */
  lemma ExactPass(env: Env, q: Request, s: Shape, t: Shape)
    requires NthOutcome(env, q, FlIndex(q.needed), false, s, t, 0, 0, t)
    ensures NoneBefore(env, q, t, StartList(q.needed))
  {
    forall b: nat | IsFree(t, b) && (FlIndex(t[b].sz) < StartList(q.needed) || t[b].sz == q.needed)
      ensures !Usable(env, q, b, t[b].sz)
    {
      if q.needed <= t[b].sz {
        FlIndexMonotone(q.needed, t[b].sz);
        assert FlIndex(t[b].sz) == FlIndex(q.needed) && t[b].sz == q.needed;
        assert !Eligible(env, q, false, t, b);
      }
    }
  }

  lemma NextList(env: Env, q: Request, s0: Shape, s: Shape, t: Shape, i: nat)
    requires OnlyDropped(env, q, s0, s) && NoneBefore(env, q, s, i) && NthOutcome(env, q, i, true, s, t, 0, 0, t)
    ensures OnlyDropped(env, q, s0, t) && NoneBefore(env, q, t, i + 1)
  {
    DroppedFromTransitive(s0, s, t);
    forall b: nat | IsFree(t, b) && (FlIndex(t[b].sz) < i + 1 || t[b].sz == q.needed) ensures !Usable(env, q, b, t[b].sz) {
      assert IsFree(s, b) && s[b] == t[b];
      if FlIndex(t[b].sz) == i { assert !Eligible(env, q, true, t, b); }
    }
  }

  lemma FoundOnList(env: Env, q: Request, n: nat, maySplit: bool, limit: nat, s0: Shape, s: Shape, t: Shape, f: nat, r: nat, u: Shape)
    requires OnlyDropped(env, q, s0, s) && NthOutcome(env, q, n, maySplit, s, t, f, r, u) && r != 0
    requires maySplit ==> n <= limit && NoneBefore(env, q, s, n)
    ensures AllocOutcome(env, q, limit, s0, t, f, r, u) && IsFree(t, f) && FlIndex(t[f].sz) == n
    ensures maySplit == (t[f].sz != q.needed)
  {
    DroppedFromTransitive(s0, s, t);
    if maySplit {
      forall b: nat | IsFree(t, b) && (FlIndex(t[b].sz) < n || t[b].sz == q.needed) ensures !Usable(env, q, b, t[b].sz) {
        assert IsFree(s, b) && s[b] == t[b];
      }
      GrantedUsable(env, q, t, f, r);
    }
  }

  lemma GrantedUsable(env: Env, q: Request, s: Shape, f: nat, r: nat)
    requires Granted(env, q, s, f, r)
    ensures Usable(env, q, f, s[f].sz)
  {
  }

  // ---------- the limit for splitting ----------

  /** Enough bytes are free on the lists from n on, or allocated. */
  ghost predicate EnoughFrom(freeBytes: seq<int>, n: nat, largeAllocd: int, maxLargeAllocd: int) {
    maxLargeAllocd <= largeAllocd + TotalFrom(freeBytes, n)
  }

  /** split_limit of GC_allochblk, with these bytes on the free lists. */
  ghost predicate IsLimit(freeBytes: seq<int>, useMore: bool, freedLots: bool, largeAllocd: int, maxLargeAllocd: int, limit: nat) {
    if useMore then limit == N_HBLK_FLS
    else if freedLots then limit == 0
    else
      && limit <= N_HBLK_FLS && (limit != 0 ==> EnoughFrom(freeBytes, limit, largeAllocd, maxLargeAllocd))
      && forall m: nat :: limit < m <= N_HBLK_FLS ==> !EnoughFrom(freeBytes, m, largeAllocd, maxLargeAllocd)
  }

  /** A request fails only if no usable block lies on a list that is followed by enough large blocks. */
  lemma EnoughLeftIsSplit(env: Env, q: Request, freeBytes: seq<int>, largeAllocd: int, maxLargeAllocd: int, limit: nat,
                          s: Shape, before: Shape, f: nat, after: Shape, b: nat, n: nat)
    requires IsLimit(freeBytes, false, false, largeAllocd, maxLargeAllocd, limit) && AllocOutcome(env, q, limit, s, before, f, 0, after)
    requires n <= N_HBLK_FLS && EnoughFrom(freeBytes, n, largeAllocd, maxLargeAllocd) && IsFree(after, b) && FlIndex(after[b].sz) <= n
    ensures !Usable(env, q, b, after[b].sz)
  {
  }

  lemma AnyLengths(v: Heap, own: Owners)
    requires HeapOk(v, own)
    ensures LengthsOf(v.fl) == Right
  {
  }

  lemma NothingDropped(env: Env, q: Request, s: Shape)
    ensures OnlyDropped(env, q, s, s)
  {
  }

  lemma FailedNth(env: Env, q: Request, n: nat, maySplit: bool, s: Shape, before: Shape, f: nat, after: Shape)
    requires NthOutcome(env, q, n, maySplit, s, before, f, 0, after)
    ensures after == before && NthOutcome(env, q, n, maySplit, s, after, 0, 0, after) && OnlyDropped(env, q, s, after)
  {
  }

  lemma AllFailed(env: Env, q: Request, limit: nat, i: nat, s: Shape, t: Shape)
    requires OnlyDropped(env, q, s, t) && NoneBefore(env, q, t, i) && limit < i
    ensures AllocOutcome(env, q, limit, s, t, 0, 0, t)
  {
  }

  /**
   * With split_limit at N_HBLK_FLS, failure means that no free block is large enough if the object is never collected, or
   * is a small one without pointers: for such objects the black lists do not matter.
   */
  lemma SearchIsComplete(env: Env, q: Request, s: Shape, before: Shape, f: nat, after: Shape)
    requires AllocOutcome(env, q, N_HBLK_FLS, s, before, f, 0, after)
    requires MarkModel.IsUncollectable(q.kind, env.atomicUncollectable) || (q.kind == MarkModel.PTRFREE && q.needed <= MAX_BLACK_LIST_ALLOC)
    ensures after == s && forall b: nat :: IsFree(s, b) ==> s[b].sz < q.needed
  {
    forall b: nat | IsFree(s, b) ensures s[b].sz < q.needed {
      assert FlIndex(s[b].sz) < N_HBLK_FLS + 1 && !Usable(env, q, b, s[b].sz);
    }
  }

  /**
   * For all other objects failure means that every free block that is large enough is black-listed: from no start are the
   * pages of the object, or its first page if only that matters, clear; and not both the object and the rest are huge.
   */
  lemma FailureMeansBlackListed(env: Env, q: Request, s: Shape, before: Shape, f: nat, after: Shape, b: nat, r: nat)
    requires AllocOutcome(env, q, N_HBLK_FLS, s, before, f, 0, after) && IsFree(after, b) && b <= r && r + q.needed <= b + after[b].sz
    ensures !MarkModel.IsUncollectable(q.kind, env.atomicUncollectable) && (q.kind == MarkModel.PTRFREE ==> MAX_BLACK_LIST_ALLOC < q.needed)
    ensures !Clean(env.bl, r, if q.ignoreOffPage then 1 else q.needed)
    ensures q.needed <= env.blackListSpacing || after[b].sz - q.needed <= env.blackListSpacing
  {
    assert FlIndex(after[b].sz) < N_HBLK_FLS + 1 && !Usable(env, q, b, after[b].sz);
    assert Effective(q) == if q.ignoreOffPage then 1 else q.needed;
    assert !Clean(env.bl, r, Effective(q));
  }

  /**
   * An object that is collected, and has pointers or is not small, is granted on pages that are clear (its first page, if
   * only that matters), unless it and what is left of the block are larger than the black-list spacing, and no other
   * place p in the block is clear either.
   */
  lemma GrantedPagesClean(env: Env, q: Request, limit: nat, s: Shape, before: Shape, f: nat, r: nat, after: Shape, p: nat)
    requires AllocOutcome(env, q, limit, s, before, f, r, after) && r != 0
    requires !MarkModel.IsUncollectable(q.kind, env.atomicUncollectable)
    requires q.kind != MarkModel.PTRFREE || MAX_BLACK_LIST_ALLOC < q.needed
    ensures IsFree(before, f)
    ensures Clean(env.bl, r, if q.ignoreOffPage then 1 else q.needed)
      || (env.blackListSpacing < q.needed && q.needed + env.blackListSpacing < before[f].sz && r == f
          && (f <= p && p + q.needed <= f + before[f].sz ==> !Clean(env.bl, p, if q.ignoreOffPage then 1 else q.needed)))
  {
    hide Clean;
    assert Granted(env, q, before, f, r) by { hide Granted; }
    assert Effective(q) == if q.ignoreOffPage then 1 else q.needed;
    assert Tests(env, q);
    hide *;
    GrantedAs(env, q, before, f, r, p);
  }

  lemma GrantedAs(env: Env, q: Request, s: Shape, f: nat, r: nat, p: nat)
    requires Granted(env, q, s, f, r) && Tests(env, q)
    ensures IsFree(s, f)
    ensures Clean(env.bl, r, Effective(q))
      || (env.blackListSpacing < q.needed && q.needed + env.blackListSpacing < s[f].sz && r == f
          && (f <= p && p + q.needed <= f + s[f].sz ==> !Clean(env.bl, p, Effective(q))))
  {
    hide Clean;
  }

  // ---------- deallocation ----------

  /** Block c is the j-th of the list for its size. */
  ghost predicate AtHome(v: Heap, c: nat, j: nat) {
    On(v, FlIndex(SizeOf(v.blk, c)), j) && v.fl.lists[FlIndex(SizeOf(v.blk, c))][j] == c
    && c in v.blk && c in v.fl.next && c in v.fl.prev
  }

  ghost predicate CanMergeRight(v: Heap, b: nat, j: nat) {
    b in v.blk && 1 <= v.blk[b].sz && (IsFree(v.blk, b + v.blk[b].sz) ==> AtHome(v, b + v.blk[b].sz, j))
  }

  /** The free block b, which is on no list, is merged with the block after it if that is free. */
  ghost function MergedRight(v: Heap, b: nat, j: nat): Heap
    requires CanMergeRight(v, b, j)
  {
    var next := b + v.blk[b].sz;
    if IsFree(v.blk, next) then Heap(AbsorbNext(v.blk, b), Take(v, FlIndex(SizeOf(v.blk, next)), j).fl) else v
  }

  ghost predicate CanMergeLeft(v: Heap, b: nat, p: nat, j: nat) {
    b in v.blk && LengthsOf(v.fl) == Right
    && (p != 0 ==> AtHome(v, p, j) && p + v.blk[p].sz == b && 1 <= v.blk[p].sz)
  }

  /** The free block b, which is on no list, is merged with the free block p before it, unless p is 0. */
  ghost function MergedLeft(v: Heap, b: nat, p: nat, j: nat): Heap
    requires CanMergeLeft(v, b, p, j)
  {
    if p != 0 then Heap(AbsorbNext(v.blk, p), Take(v, FlIndex(SizeOf(v.blk, p)), j).fl) else v
  }

  lemma AbsorbedOk(v: Heap, b: nat, ex: set<nat>)
    requires Orderly(v, ex) && b in v.blk && 1 <= v.blk[b].sz && b + v.blk[b].sz in v.blk
    requires b !in v.fl.home && b + v.blk[b].sz !in v.fl.home
    ensures Orderly(Heap(AbsorbNext(v.blk, b), v.fl), ex - {b + v.blk[b].sz} + {b})
  {
    var t, next := AbsorbNext(v.blk, b), b + v.blk[b].sz;
    HomeInShape(v.fl, v.blk);
    ListsOkSame(v.fl, v.blk, t);
    forall c: nat | c !in ex - {next} + {b} ensures HomedAt(t, v.fl, c) { if c != next { assert HomedAt(v.blk, v.fl, c); } }
  }

  lemma MergedRightOk(v: Heap, b: nat, j: nat)
    requires Orderly(v, {b}) && CanMergeRight(v, b, j) && b !in v.fl.home
    ensures var w, next := MergedRight(v, b, j), b + v.blk[b].sz;
      && Orderly(w, {b}) && b !in w.fl.home && LengthsOf(w.fl) == Right
      && Total(w.fl.freeBytes) == Total(v.fl.freeBytes) - (if IsFree(v.blk, next) then v.blk[next].sz else 0)
  {
    var next := b + v.blk[b].sz;
    if IsFree(v.blk, next) {
      var i := FlIndex(SizeOf(v.blk, next));
      TakeOk(v, i, j, {b});
      AbsorbedOk(Take(v, i, j), b, {b} + {next});
      assert {b} + {next} - {next} + {b} == {b};
    }
  }

  lemma MergedLeftOk(v: Heap, b: nat, p: nat, j: nat)
    requires Orderly(v, {b}) && CanMergeLeft(v, b, p, j) && b !in v.fl.home
    ensures var w, start := MergedLeft(v, b, p, j), if p != 0 then p else b;
      && Orderly(w, {start}) && start !in w.fl.home && LengthsOf(w.fl) == Right
      && Total(w.fl.freeBytes) == Total(v.fl.freeBytes) - (if p != 0 then v.blk[p].sz else 0)
  {
    if p != 0 {
      var i := FlIndex(SizeOf(v.blk, p));
      TakeOk(v, i, j, {b});
      AbsorbedOk(Take(v, i, j), p, {b} + {p});
      assert {b} + {p} - {b} + {p} == {p};
    }
  }

  /** The header of b says that it is free; b is on no list yet. */
  ghost function Flagged(v: Heap, b: nat): Heap
    requires b in v.blk
  {
    v.(blk := v.blk[b := Blk(v.blk[b].sz, true)])
  }

  lemma FlaggedOk(v: Heap, own: Owners, b: nat)
    requires HeapOk(v, own) && IsUsed(v.blk, b)
    ensures Orderly(Flagged(v, b), {b}) && b !in v.fl.home && 1 <= v.blk[b].sz && b != 0 && Tiled(Flagged(v, b).blk, own)
  {
    var f := Flagged(v, b);
    assert HomedAt(v.blk, v.fl, b);
    HomeInShape(v.fl, v.blk);
    ListsOkSame(v.fl, v.blk, f.blk);
    forall c: nat | c !in {b} ensures HomedAt(f.blk, f.fl, c) { assert HomedAt(v.blk, v.fl, c); }
    assert forall c: nat, q: nat :: Inside(f.blk, c, q) <==> Inside(v.blk, c, q);
  }

  /** The neighbours to merge with are on the lists for their sizes. */
  lemma RightNeighbour(v: Heap, b: nat) returns (j: nat)
    requires Orderly(v, {b}) && b in v.blk && 1 <= v.blk[b].sz
    ensures CanMergeRight(v, b, j)
  {
    var c := b + v.blk[b].sz;
    j := 0;
    if IsFree(v.blk, c) { j := Listing(v, {b}, c); }
  }

  lemma LeftNeighbour(v: Heap, b: nat, p: nat) returns (j: nat)
    requires Orderly(v, {b}) && b in v.blk
    requires p != 0 ==> IsFree(v.blk, p) && p + v.blk[p].sz == b && 1 <= v.blk[p].sz
    ensures CanMergeLeft(v, b, p, j)
  {
    j := 0;
    if p != 0 { j := Listing(v, {b}, p); }
  }

  lemma Listing(v: Heap, ex: set<nat>, c: nat) returns (j: nat)
    requires Orderly(v, ex) && IsFree(v.blk, c) && c !in ex
    ensures AtHome(v, c, j)
  {
    assert HomedAt(v.blk, v.fl, c);
    j := Position(v.fl, v.blk, c);
    OnList(v.fl, v.blk, v.fl.home[c], j);
  }

  /** The blocks after the merge with the right neighbour. */
  lemma RightShape(v: Heap, b: nat, p: nat, j: nat)
    requires b in v.blk && !v.blk[b].free && CanMergeRight(Flagged(v, b), b, j) && FreeBefore(v.blk, b, p) && p < b
    ensures var t := MergedRight(Flagged(v, b), b, j).blk;
      t == ReleaseRight(v.blk, b) && b in t && (p != 0 ==> p in v.blk && IsFree(t, p) && t[p] == v.blk[p] && p + t[p].sz == b)
  {
  }

  lemma LeftShape(v: Heap, s: Shape, b: nat, p: nat, j: nat)
    requires CanMergeLeft(v, b, p, j) && b in s && 1 <= s[b].sz && v.blk == ReleaseRight(s, b)
    requires p != 0 ==> p in s && p < b && p + s[p].sz == b && 1 <= s[p].sz
    ensures MergedLeft(v, b, p, j).blk == Release(s, b, p)
  {
  }

  /** The free block that ends at b, found when b is flagged already. */
  lemma FlaggedBefore(v: Heap, own: Owners, b: nat, p: nat)
    requires Tiled(v.blk, own) && IsUsed(v.blk, b) && FreeBefore(Flagged(v, b).blk, b, p)
    ensures FreeBefore(v.blk, b, p) && (p != 0 ==> p < b && 1 <= v.blk[p].sz)
  {
    if p == 0 {
      forall q: nat | IsFree(v.blk, q) ensures q + v.blk[q].sz != b { assert IsFree(Flagged(v, b).blk, q); }
    }
  }

  /** A block is freed and listed as it is, next to free blocks or not. */
  lemma FreedApart(v: Heap, own: Owners, b: nat)
    requires Orderly(v, {}) && Tiled(v.blk, own) && IsUsed(v.blk, b)
    ensures var w := Give(v, b, v.blk[b].sz);
      && LengthsOf(v.fl) == Right && Orderly(w, {}) && Tiled(w.blk, own) && w.blk == v.blk[b := Blk(v.blk[b].sz, true)]
      && Total(w.fl.freeBytes) == Total(v.fl.freeBytes) + v.blk[b].sz
  {
    assert HomedAt(v.blk, v.fl, b);
    GiveOk(v, b, v.blk[b].sz, {});
    var w := Give(v, b, v.blk[b].sz);
    assert {} - {b} == {};
    assert forall c: nat, q: nat :: Inside(w.blk, c, q) <==> Inside(v.blk, c, q);
  }

  /** The merged block goes to its list. */
  lemma GiveMerged(x: Heap, s: Shape, own: Owners, b: nat, p: nat)
    requires b in s && 1 <= s[b].sz && (p != 0 ==> p in s && p < b && p + s[p].sz == b && 1 <= s[p].sz)
    requires x.blk == Release(s, b, p) && Tiled(x.blk, own) && Coalesced(x.blk)
    requires var start := if p != 0 then p else b; start != 0 && Orderly(x, {start}) && start !in x.fl.home
    ensures var start := if p != 0 then p else b;
      var w := Give(x, start, SizeOf(x.blk, start));
      && LengthsOf(x.fl) == Right && w.blk == x.blk && HeapOk(w, own)
      && Total(w.fl.freeBytes) == Total(x.fl.freeBytes) + s[b].sz
         + (if p != 0 then s[p].sz else 0) + (if IsFree(s, b + s[b].sz) then s[b + s[b].sz].sz else 0)
  {
    var start := if p != 0 then p else b;
    GiveOk(x, start, SizeOf(x.blk, start), {start});
    assert {start} - {start} == {};
  }

  /** The merge with the successor; o owns the pages once b is free. */
  ghost predicate RightMerged(v: Heap, w: Heap, keys: set<nat>, o: Owners, b: nat, p: nat) {
    && b in v.blk && 1 <= v.blk[b].sz && b != 0 && (p != 0 ==> p in v.blk && p < b && p + v.blk[p].sz == b && 1 <= v.blk[p].sz)
    && Orderly(w, {b}) && b !in w.fl.home && w.blk == ReleaseRight(v.blk, b)
    && b in w.blk && (p != 0 ==> IsFree(w.blk, p) && w.blk[p] == v.blk[p])
    && Total(w.fl.freeBytes) + SizeOfFree(v.blk, b + v.blk[b].sz) == Total(v.fl.freeBytes)
    && Tiled(Release(v.blk, b, p), o) && Coalesced(Release(v.blk, b, p)) && o.Keys == keys
    && IsUsed(v.blk, b) && FreeBefore(v.blk, b, p)
  }

  lemma FreeRight(v: Heap, own: Owners, b: nat, p: nat) returns (j: nat, o: Owners)
    requires HeapOk(v, own) && IsUsed(v.blk, b) && FreeBefore(Flagged(v, b).blk, b, p)
    ensures CanMergeRight(Flagged(v, b), b, j)
    ensures RightMerged(v, MergedRight(Flagged(v, b), b, j), own.Keys, o, b, p)
  {
    assert Tiled(v.blk, own) && Coalesced(v.blk);
    FlaggedOk(v, own, b);
    FlaggedBefore(v, own, b, p);
    hide HeapOk, Total, Orderly, MergedRight, ReleaseRight, Release, Tiled, Coalesced;
    o := ReleaseOk(v.blk, own, b, p);
    j := RightNeighbour(Flagged(v, b), b);
    RightShape(v, b, p, j);
    MergedRightOk(Flagged(v, b), b, j);
  }

  function SizeOfFree(s: Shape, c: nat): nat { if IsFree(s, c) then s[c].sz else 0 }

  /** t is s after freeing b: b is merged with p, the free block ending at b if p is not 0, and the free block after it. */
  ghost predicate FreedTo(s: Shape, b: nat, p: nat, t: Shape) {
    IsUsed(s, b) && FreeBefore(s, b, p) && 1 <= s[b].sz && (p != 0 ==> p < b && 1 <= s[p].sz) && t == Release(s, b, p)
  }

  /** The merge with the predecessor, and the way to the free list; w is the heap after the first merge. */
  lemma FreeLeft(v: Heap, w: Heap, keys: set<nat>, o: Owners, b: nat, p: nat) returns (j: nat)
    requires RightMerged(v, w, keys, o, b, p)
    ensures CanMergeLeft(w, b, p, j) && o.Keys == keys
    ensures var x, start := MergedLeft(w, b, p, j), if p != 0 then p else b;
      start in x.blk && LengthsOf(x.fl) == Right && HeapOk(Give(x, start, x.blk[start].sz), o)
    ensures var x, start := MergedLeft(w, b, p, j), if p != 0 then p else b;
      FreedTo(v.blk, b, p, Give(x, start, x.blk[start].sz).blk)
      && Total(Give(x, start, x.blk[start].sz).fl.freeBytes) == Total(v.fl.freeBytes) + v.blk[b].sz
  {
    j := LeftNeighbour(w, b, p);
    hide HeapOk, Total, Coalesced, Tiled, Orderly, Give, MergedLeft, Release, ReleaseRight, CanMergeLeft;
    LeftShape(w, v.blk, b, p, j);
    MergedLeftOk(w, b, p, j);
    StartIn(v.blk, b, p);
    GiveMerged(MergedLeft(w, b, p, j), v.blk, o, b, p);
  }

  lemma StartIn(s: Shape, b: nat, p: nat)
    requires b in s && 1 <= s[b].sz && (p != 0 ==> p in s && p < b && p + s[p].sz == b && 1 <= s[p].sz)
    ensures (if p != 0 then p else b) in Release(s, b, p)
  {
  }

  /** Freeing the pages that were just allocated restores the partition they were taken from. */
  lemma AllocateThenFree(env: Env, q: Request, limit: nat, s: Shape, before: Shape, own: Owners, f: nat, r: nat, after: Shape, p: nat, t: Shape)
    requires AllocOutcome(env, q, limit, s, before, f, r, after) && r != 0 && 1 <= q.needed
    requires Tiled(before, own) && Coalesced(before) && FreedTo(after, r, p, t)
    ensures t == before
  {
    CarveThenRelease(before, own, f, r, q.needed, p);
  }

  // ---------- no page is lost ----------

  ghost function UsedPages(s: Shape, own: Owners): set<nat> {
    set p: nat | p in own && IsUsed(s, own[p])
  }

  /** The pages of the blocks on list i and the lists after it. */
  ghost function PagesFrom(v: Heap, own: Owners, i: nat): set<nat> {
    set p: nat | p in own && own[p] in v.fl.home && i <= v.fl.home[own[p]]
  }

  ghost function PagesOn(own: Owners, l: seq<nat>): set<nat> {
    set p: nat | p in own && own[p] in l
  }

  lemma {:induction false} RangeSize(b: nat, n: nat)
    ensures |Range(b, n)| == n
    decreases n
  {
    if n == 0 {
      assert Range(b, n) == {};
    } else {
      RangeSize(b, n - 1);
      assert Range(b, n) == Range(b, n - 1) + {b + n - 1};
    }
  }

  lemma {:induction false} PagesOnSize(s: Shape, own: Owners, l: seq<nat>)
    requires Tiled(s, own) && NoDup(l) && forall b :: b in l ==> b in s
    ensures |PagesOn(own, l)| == SumSizes(s, l)
  {
    if l == [] {
      assert PagesOn(own, l) == {};
    } else {
      var h, rest := l[0], l[1..];
      PagesOnSize(s, own, rest);
      RangeSize(h, s[h].sz);
      assert h !in rest;
      forall p: nat ensures p in PagesOn(own, l) <==> p in Range(h, s[h].sz) || p in PagesOn(own, rest) {
        assert Inside(s, h, p) <==> h <= p < h + s[h].sz;
        assert p in own ==> Inside(s, own[p], p);
      }
      forall p: nat | p in Range(h, s[h].sz) ensures p !in PagesOn(own, rest) { assert Inside(s, h, p); }
      assert PagesOn(own, l) == Range(h, s[h].sz) + PagesOn(own, rest);
    }
  }

  lemma {:induction false} PagesFromSize(v: Heap, own: Owners, i: nat)
    requires HeapOk(v, own) && i <= N_HBLK_FLS + 1
    ensures |v.fl.freeBytes| == N_HBLK_FLS + 1 && |PagesFrom(v, own, i)| == Total(v.fl.freeBytes[i..])
    decreases N_HBLK_FLS + 1 - i
  {
    if i <= N_HBLK_FLS {
      PagesFromSize(v, own, i + 1);
      assert v.fl.freeBytes[i..][1..] == v.fl.freeBytes[i + 1..];
      ListPages(v, own, i);
      var a, b := PagesOn(own, v.fl.lists[i]), PagesFrom(v, own, i + 1);
      assert PagesFrom(v, own, i) == a + b && a !! b;
    } else {
      NothingFrom(v, own, i);
    }
  }

  lemma NothingFrom(v: Heap, own: Owners, i: nat)
    requires HeapOk(v, own) && N_HBLK_FLS < i
    ensures PagesFrom(v, own, i) == {}
  {
    forall x: nat | x in v.fl.home ensures v.fl.home[x] < i { assert HomeOk(v.fl, v.blk, x); }
    assert PagesFrom(v, own, i) == {};
  }

  lemma ListPages(v: Heap, own: Owners, i: nat)
    requires HeapOk(v, own) && i <= N_HBLK_FLS
    ensures |v.fl.lists| == N_HBLK_FLS + 1 == |v.fl.freeBytes| && |PagesOn(own, v.fl.lists[i])| == v.fl.freeBytes[i]
    ensures forall p: nat :: p in PagesOn(own, v.fl.lists[i]) <==> p in own && own[p] in v.fl.home && v.fl.home[own[p]] == i
  {
    assert ListOk(v.fl, v.blk, i);
    var l := v.fl.lists[i];
    forall b | b in l ensures b in v.blk && b in v.fl.home && v.fl.home[b] == i {
      assert Listed(v.fl, i, b);
      assert HomeOk(v.fl, v.blk, b);
    }
    PagesOnSize(v.blk, own, l);
    forall p: nat | p in own && own[p] in v.fl.home && v.fl.home[own[p]] == i ensures own[p] in l {
      assert HomeOk(v.fl, v.blk, own[p]);
    }
  }

  /** Used pages and what the free lists count add up to the heap. */
  lemma NoBlocksLost(v: Heap, own: Owners)
    requires HeapOk(v, own)
    ensures |UsedPages(v.blk, own)| + Total(v.fl.freeBytes) == |own.Keys|
  {
    PagesFromSize(v, own, 0);
    assert v.fl.freeBytes[0..] == v.fl.freeBytes;
    var a, b := UsedPages(v.blk, own), PagesFrom(v, own, 0);
    forall p: nat ensures p in own <==> p in a || p in b {
      if p in own {
        assert Inside(v.blk, own[p], p);
        assert HomedAt(v.blk, v.fl, own[p]);
      }
    }
    forall p: nat | p in a ensures p !in b { assert HomedAt(v.blk, v.fl, own[p]); }
    assert own.Keys == a + b && a !! b;
  }

  // ---------- growing the heap ----------

  ghost predicate Counts(n: nat, pages: set<nat>) { n == |pages| }

  lemma PartOf(own: Owners, b: nat, n: nat, at: nat, pages: nat)
    requires own.Keys !! Range(b, n) && (pages != 0 ==> b <= at && at + pages <= b + n)
    ensures own.Keys !! Range(at, pages) && (pages == 0 ==> own.Keys + Range(at, pages) == own.Keys)
  {
    forall q: nat | q in Range(at, pages) ensures q in Range(b, n) { assert Between(at, pages, q) && Between(b, n, q); }
  }

  lemma NewSectionOk(v: Heap, own: Owners, b: nat, n: nat)
    requires HeapOk(v, own) && 1 <= b && 1 <= n && own.Keys !! Range(b, n)
    ensures HeapOk(v.(blk := v.blk[b := Blk(n, false)]), WithRange(own, b, n)) && b !in v.blk
    ensures WithRange(own, b, n).Keys == own.Keys + Range(b, n) && Counts(|own.Keys| + n, own.Keys + Range(b, n))
  {
    RangeSize(b, n);
    SectionTiled(v.blk, own, b, n);
    hide Tiled, Coalesced;
    var w := v.(blk := v.blk[b := Blk(n, false)]);
    HomeInShape(v.fl, v.blk);
    ListsOkSame(v.fl, v.blk, w.blk);
    forall c: nat ensures HomedAt(w.blk, w.fl, c) { assert HomedAt(v.blk, v.fl, c); }
  }

  ghost function Zeros(n: nat): seq<int> { seq(n, i => 0) }

  lemma {:induction false} TotalZeros(n: nat)
    ensures Total(Zeros(n)) == 0
  {
    if 0 < n {
      TotalZeros(n - 1);
      assert Zeros(n)[1..] == Zeros(n - 1);
    }
  }

  lemma EmptyHeap(v: Heap)
    requires v.blk == map[] && v.fl.home == map[] && LengthsOf(v.fl) == Right
    requires forall i: nat :: i <= N_HBLK_FLS ==> v.fl.lists[i] == [] && v.fl.heads[i] == 0 && v.fl.freeBytes[i] == 0
    ensures HeapOk(v, map[])
  {
  }
}
