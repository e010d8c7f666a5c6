/**
The two-level index that finds the header of a block (libs/gc/headers.c:190-403 and
libs/gc/include/private/gc_hdrs.h), and what it says about the partition of the heap.  Blocks are
numbered by address / HBLKSIZE.  A bottom index is named by its key plus one, so that 0 is the null
pointer; the hash chains of the top level are the domain of the map entries.
 */
module HeaderIndex {
  import opened Arithmetic
  import opened HeapShape
  import opened FreeLists

  type Positive = n: nat | 0 < n witness 1

  /** HBLKSIZE in bytes. */
  const HBLKSIZE: Positive

  const BOTTOM_SZ: Positive

  const MAX_JUMP: Positive

  /** Nothing; how far back to look for the first block of an object; or a header with hb_sz and FREE_BLK. */
  datatype Entry = Nil | Forward(k: nat) | Header(sz: nat, free: bool)

  // ---------- addresses ----------

  /** The high order address bits of block p, and its place in the bottom index. */
  function KeyOf(p: nat): nat { p / BOTTOM_SZ }

  function PlaceOf(p: nat): (j: nat)
    ensures j < BOTTOM_SZ
  {
    p % BOTTOM_SZ
  }

  function Address(key: nat, j: int): int { key * BOTTOM_SZ + j }

  lemma AddressSplit(key: nat, j: nat)
    requires j < BOTTOM_SZ
    ensures Address(key, j) >= 0 && KeyOf(Address(key, j)) == key && PlaceOf(Address(key, j)) == j
  {
    DivModUnique(Address(key, j), BOTTOM_SZ, key, j);
  }

  lemma AddressJoin(p: nat)
    ensures Address(KeyOf(p), PlaceOf(p)) == p
  {
  }

  /** Lower keys have lower addresses. */
  lemma AddressOrder(key: nat, p: nat)
    ensures KeyOf(p) < key <==> p < Address(key, 0)
    ensures KeyOf(p) > key <==> p >= Address(key, BOTTOM_SZ)
  {
    AddressJoin(p);
    if KeyOf(p) < key { MulMono(KeyOf(p) + 1, key, BOTTOM_SZ); } else { MulMono(key, KeyOf(p), BOTTOM_SZ); }
    if key < KeyOf(p) { MulMono(key + 1, KeyOf(p), BOTTOM_SZ); } else { MulMono(KeyOf(p), key, BOTTOM_SZ); }
  }

  // ---------- the flat view ----------

  type Entries = map<nat, seq<Entry>>

  /** HDR(p). */
  function Hdr(e: Entries, p: nat): Entry {
    if KeyOf(p) + 1 in e && PlaceOf(p) < |e[KeyOf(p) + 1]| then e[KeyOf(p) + 1][PlaceOf(p)] else Nil
  }

  /** The forwarding count of the i-th block of an object. */
  function Count(i: nat): nat { if i > MAX_JUMP then MAX_JUMP else i }

  /** OBJ_SZ_TO_BLOCKS. */
  function ToBlocks(bytes: nat): nat { (bytes + HBLKSIZE - 1) / HBLKSIZE }

  /** hb_sz of each block: the object size of a used block, the whole size of a free one. */
  type Sizes = map<nat, nat>

  /** What the index ought to say about block p. */
  ghost function EntryFor(s: Shape, own: Owners, z: Sizes, p: nat): Entry {
    if p !in own || own[p] !in s || own[p] !in z then Nil
    else if own[p] == p then Header(z[p], s[p].free)
    else if s[own[p]].free || p < own[p] then Nil
    else Forward(Count(p - own[p]))
  }

  ghost predicate SizesOk(s: Shape, z: Sizes) {
    forall b: nat :: b in s ==> b in z && 1 <= z[b] && ToBlocks(z[b]) == s[b].sz && (s[b].free ==> z[b] == s[b].sz * HBLKSIZE)
  }

  /** The index agrees with the partition of the heap. */
  ghost predicate Agrees(e: Entries, s: Shape, own: Owners, z: Sizes) {
    && Tiled(s, own) && SizesOk(s, z)
    && forall p: nat {:trigger Hdr(e, p)} :: Hdr(e, p) == EntryFor(s, own, z, p)
  }

  /** Every block of s in use, but x, stays in use for objects of the same size. */
  ghost predicate KeepsSizes(s: Shape, z: Sizes, t: Shape, y: Sizes, x: nat) {
    forall b: nat :: IsUsed(s, b) && b != 0 && b != x ==> IsUsed(t, b) && b in z && b in y && y[b] == z[b]
  }

  /** A block that comes into use is r, for objects of `bytes` bytes, or a page that was given up. */
  ghost predicate NewSizes(s: Shape, t: Shape, y: Sizes, r: nat, bytes: nat) {
    forall b: nat :: IsUsed(t, b) && b != 0 && !IsUsed(s, b) ==> b in y && y[b] == if b == r then bytes else HBLKSIZE
  }

  lemma KeepsAll(e: Entries, s: Shape, own: Owners, z: Sizes)
    requires Agrees(e, s, own, z)
    ensures KeepsSizes(s, z, s, z, 0) && NewSizes(s, s, z, 0, 0)
  {
  }

  lemma KeepsThen(s: Shape, z: Sizes, t: Shape, y: Sizes, x: nat, u: Shape, w: Sizes)
    requires KeepsSizes(s, z, t, y, x) && KeepsSizes(t, y, u, w, 0)
    ensures KeepsSizes(s, z, u, w, x)
  {
  }

  lemma NewThen(s: Shape, t: Shape, y: Sizes, u: Shape, w: Sizes, r: nat, bytes: nat)
    requires NewSizes(s, t, y, 0, 0) && KeepsSizes(t, y, u, w, 0) && NewSizes(t, u, w, r, bytes) && !IsUsed(t, r)
    ensures NewSizes(s, u, w, r, bytes)
  {
  }

  lemma HeaderAt(e: Entries, s: Shape, own: Owners, z: Sizes, p: nat)
    requires Agrees(e, s, own, z)
    ensures Hdr(e, p).Header? <==> p in s
    ensures p in s ==> p != 0
    ensures Hdr(e, p).Header? ==> Hdr(e, p) == Header(z[p], s[p].free)
  {
    if p in s { assert Inside(s, p, p); }
    if p in own { assert Inside(s, own[p], p); }
  }

  /** A forwarding count does not lead past the first block of the object. */
  lemma ForwardAt(e: Entries, s: Shape, own: Owners, z: Sizes, p: nat)
    requires Agrees(e, s, own, z) && Hdr(e, p).Forward?
    ensures p in own && IsUsed(s, own[p]) && 1 <= Hdr(e, p).k <= p - own[p] && Hdr(e, p).k <= MAX_JUMP
    ensures forall q: nat :: own[p] < q <= p ==> q !in s
  {
    assert Inside(s, own[p], p);
    NoneWithin(s, own, own[p]);
  }

  lemma NilAt(e: Entries, s: Shape, own: Owners, z: Sizes, p: nat)
    requires Agrees(e, s, own, z) && Hdr(e, p).Nil?
    ensures p !in s && (p in own ==> IsFree(s, own[p]))
  {
    if p in s { assert Inside(s, p, p); }
    if p in own { assert Inside(s, own[p], p); }
  }

  // ---------- the list of bottom indices ----------

  ghost predicate Increasing(l: seq<nat>) {
    forall i, j :: 0 <= i < j < |l| ==> l[i] < l[j]
  }

  /** All bottom indices are on the list, in ascending order, doubly linked. */
  ghost predicate Chained(e: Entries, asc: Links, desc: Links, first: nat, last: nat, l: seq<nat>) {
    && Linked(asc, desc, first, l) && Increasing(l)
    && last == (if l == [] then 0 else l[|l| - 1])
    && (forall x: nat :: x in l <==> x in e)
    && (forall x: nat :: x in e ==> |e[x]| == BOTTOM_SZ)
  }

  function InsertAt(l: seq<nat>, j: nat, n: nat): seq<nat>
    requires j <= |l|
  {
    l[..j] + [n] + l[j..]
  }

  lemma InsertedAt(l: seq<nat>, j: nat, n: nat)
    requires j <= |l|
    ensures var m := InsertAt(l, j, n);
      |m| == |l| + 1 && forall k: nat :: k < |m| ==> m[k] == if k < j then l[k] else if k == j then n else l[k - 1]
    ensures forall x: nat :: x in InsertAt(l, j, n) <==> x in l || x == n
  {
    var m := InsertAt(l, j, n);
    forall x: nat ensures x in m <==> x in l || x == n {
      if x in l {
        var k: nat :| k < |l| && l[k] == x;
        assert m[if k < j then k else k + 1] == x;
      }
      if x == n { assert m[j] == n; }
    }
  }

  lemma InsertIncreasing(l: seq<nat>, j: nat, n: nat)
    requires Increasing(l) && j <= |l| && (forall i :: 0 <= i < j ==> l[i] < n) && (j < |l| ==> n < l[j])
    ensures Increasing(InsertAt(l, j, n))
  {
    InsertedAt(l, j, n);
  }

  /** m is l with n inserted before place j. */
  ghost predicate Inserted(l: seq<nat>, j: nat, n: nat, m: seq<nat>) {
    && j <= |l| && |m| == |l| + 1 && m[j] == n
    && (forall k: nat :: k < j ==> m[k] == l[k]) && (forall k: nat :: j < k < |m| ==> m[k] == l[k - 1])
  }

  /** The ascending links after n is put between pi and p. */
  function AscAfter(asc: Links, pi: nat, p: nat, n: nat): Links {
    if pi == 0 then asc[n := p] else asc[n := p][pi := n]
  }

  function DescAfter(desc: Links, pi: nat, p: nat, n: nat): Links {
    if p == 0 then desc[n := pi] else desc[n := pi][p := n]
  }

  function Elem(l: seq<nat>, j: nat): nat { if j < |l| then l[j] else 0 }

  lemma LinkInAt(asc: Links, desc: Links, l: seq<nat>, j: nat, n: nat, m: seq<nat>, k: nat, asc': Links, desc': Links)
    requires Inserted(l, j, n, m) && Increasing(m) && k < |m| && n != 0
    requires asc' == AscAfter(asc, PrevOf(l, j), Elem(l, j), n) && desc' == DescAfter(desc, PrevOf(l, j), Elem(l, j), n)
    requires k < j ==> LinkedAt(asc, desc, l, k)
    requires j < k ==> LinkedAt(asc, desc, l, k - 1)
    requires 0 < j ==> LinkedAt(asc, desc, l, j - 1)
    requires j < |l| ==> LinkedAt(asc, desc, l, j)
    ensures LinkedAt(asc', desc', m, k)
  {
    if k < j {
      assert m[k] < m[j] && (j < |l| ==> m[k] < m[j + 1]) && (k < j - 1 ==> m[k] < m[j - 1]);
    } else if j < k {
      assert m[j] < m[k] && (0 < j ==> m[j - 1] < m[k]) && (j + 1 < k ==> m[j + 1] < m[k]);
    } else {
      assert (0 < j ==> m[j - 1] < m[j]) && (j < |l| ==> m[j] < m[j + 1]);
    }
  }

  /** Linking n in before the j-th index, as get_index does. */
  lemma LinkIn(asc: Links, desc: Links, first: nat, l: seq<nat>, j: nat, n: nat)
    requires Linked(asc, desc, first, l) && Increasing(l) && j <= |l| && n != 0
    requires (forall i :: 0 <= i < j ==> l[i] < n) && (j < |l| ==> n < l[j])
    ensures var pi, p := PrevOf(l, j), Elem(l, j);
      Linked(AscAfter(asc, pi, p, n), DescAfter(desc, pi, p, n), if pi == 0 then n else first, InsertAt(l, j, n))
  {
    var m := InsertAt(l, j, n);
    InsertedAt(l, j, n);
    InsertIncreasing(l, j, n);
    var pi, p := PrevOf(l, j), Elem(l, j);
    var asc', desc' := AscAfter(asc, pi, p, n), DescAfter(desc, pi, p, n);
    assert Inserted(l, j, n, m);
    assert 0 < j ==> pi != 0 by { if 0 < j { assert LinkedAt(asc, desc, l, j - 1); } }
    hide LinkedAt;
    forall k: nat | k < |m| ensures LinkedAt(asc', desc', m, k) {
      assert k < j ==> LinkedAt(asc, desc, l, k);
      assert j < k ==> LinkedAt(asc, desc, l, k - 1);
      assert 0 < j ==> LinkedAt(asc, desc, l, j - 1);
      assert j < |l| ==> LinkedAt(asc, desc, l, j);
      LinkInAt(asc, desc, l, j, n, m, k, asc', desc');
    }
    assert NoDup(m);
  }

  function NoEntries(): (b: seq<Entry>)
    ensures |b| == BOTTOM_SZ && forall j: nat :: j < BOTTOM_SZ ==> b[j] == Nil
  {
    seq(BOTTOM_SZ, (j: nat) => Nil)
  }

  ghost predicate SameHdrs(e: Entries, e': Entries) {
    forall p: nat {:trigger Hdr(e', p)} :: Hdr(e', p) == Hdr(e, p)
  }

  /** Adding the bottom index n, empty, before the j-th one. */
  lemma ChainIn(e: Entries, asc: Links, desc: Links, first: nat, last: nat, l: seq<nat>, j: nat, n: nat)
    requires Chained(e, asc, desc, first, last, l) && j <= |l| && n != 0 && n !in e
    requires (forall i :: 0 <= i < j ==> l[i] < n) && (j < |l| ==> n < l[j])
    ensures var pi, p := PrevOf(l, j), Elem(l, j);
      Chained(e[n := NoEntries()], AscAfter(asc, pi, p, n), DescAfter(desc, pi, p, n),
              if pi == 0 then n else first, if p == 0 then n else last, InsertAt(l, j, n))
  {
    if j < |l| { assert LinkedAt(asc, desc, l, j); }
    LinkIn(asc, desc, first, l, j, n);
    InsertedAt(l, j, n);
    InsertIncreasing(l, j, n);
    hide Linked, LinkedAt, AscAfter, DescAfter, InsertAt, NoEntries;
  }

  lemma EntriesIn(e: Entries, n: nat)
    requires n !in e
    ensures e[n := NoEntries()].Keys == e.Keys + {n} && SameHdrs(e, e[n := NoEntries()])
  {
  }

  /** How the list of bottom indices is walked. */
  lemma ChainAt(e: Entries, asc: Links, desc: Links, first: nat, last: nat, l: seq<nat>, j: nat)
    requires Chained(e, asc, desc, first, last, l) && j < |l|
    ensures l[j] != 0 && l[j] in e && |e[l[j]]| == BOTTOM_SZ && l[j] in asc && l[j] in desc
    ensures asc[l[j]] == NextOf(l, j) && desc[l[j]] == PrevOf(l, j)
  {
    assert LinkedAt(asc, desc, l, j);
  }

  // ---------- searches ----------

  /** Below the first bottom index whose key is not smaller there is nothing between. */
  lemma Gap(e: Entries, asc: Links, desc: Links, first: nat, last: nat, l: seq<nat>, j: nat, p: nat)
    requires Chained(e, asc, desc, first, last, l) && j <= |l|
    requires (forall i :: 0 <= i < j ==> l[i] < KeyOf(p) + 1) && (j < |l| ==> KeyOf(p) + 1 < l[j])
    ensures Hdr(e, p) == Nil
  {
    forall i | 0 <= i < |l| ensures l[i] != KeyOf(p) + 1 { assert j <= i ==> l[j] <= l[i]; }
    assert KeyOf(p) + 1 !in l;
  }

  /** The place in the bottom index with this key that stands for p. */
  lemma HdrPlace(e: Entries, key: nat, j: nat)
    requires key + 1 in e && |e[key + 1]| == BOTTOM_SZ && j < BOTTOM_SZ
    ensures Address(key, j) >= 0 && Hdr(e, Address(key, j)) == e[key + 1][j]
  {
    AddressSplit(key, j);
  }

  /** No block in use starts in lo .. hi. */
  ghost predicate NoneIn(s: Shape, lo: nat, hi: int) {
    forall q: nat :: lo <= q < hi ==> !IsUsed(s, q)
  }

  ghost predicate NoneFrom(s: Shape, lo: nat) {
    forall q: nat :: lo <= q ==> !IsUsed(s, q)
  }

  /** How far GC_next_used_block goes on past an entry that is not the header of a used block. */
  function Skip(x: Entry): nat { if x.Header? && x.free then x.sz / HBLKSIZE else 1 }

  lemma SkipNext(e: Entries, s: Shape, own: Owners, z: Sizes, lo: nat, p: nat)
    requires Agrees(e, s, own, z) && (Hdr(e, p).Header? ==> Hdr(e, p).free) && NoneIn(s, lo, p)
    ensures 1 <= Skip(Hdr(e, p)) && NoneIn(s, lo, p + Skip(Hdr(e, p)))
  {
    HeaderAt(e, s, own, z, p);
    if p in s {
      NoneWithin(s, own, p);
      DivModUnique(z[p], HBLKSIZE, s[p].sz, 0);
    }
  }

  /** The walk reaches the next bottom index: between the two there is nothing. */
  lemma NextIndex(e: Entries, s: Shape, own: Owners, z: Sizes, asc: Links, desc: Links, first: nat, last: nat, l: seq<nat>,
                  i: nat, lo: nat, j: nat)
    requires Agrees(e, s, own, z) && Chained(e, asc, desc, first, last, l) && i < |l| && 1 <= l[i] && BOTTOM_SZ <= j
    requires NoneIn(s, lo, Address(l[i] - 1, j)) && lo <= Address(l[i] - 1, BOTTOM_SZ)
    ensures i + 1 < |l| ==> 1 <= l[i + 1] && lo <= Address(l[i + 1] - 1, 0)
    ensures i + 1 < |l| && 1 <= l[i + 1] ==> NoneIn(s, lo, Address(l[i + 1] - 1, 0))
    ensures i + 1 == |l| ==> NoneFrom(s, lo)
  {
    if i + 1 < |l| { MulMono(l[i], l[i + 1] - 1, BOTTOM_SZ); }
    forall q: nat | lo <= q && (i + 1 < |l| && 1 <= l[i + 1] ==> q < Address(l[i + 1] - 1, 0)) && (i + 1 < |l| ==> 1 <= l[i + 1])
      ensures !IsUsed(s, q)
    {
      if Address(l[i] - 1, BOTTOM_SZ) <= q {
        AddressOrder(l[i] - 1, q);
        if i + 1 < |l| { AddressOrder(l[i + 1] - 1, q); }
        Gap(e, asc, desc, first, last, l, i + 1, q);
        HeaderAt(e, s, own, z, q);
      }
    }
  }

  /** The walk starts at the first bottom index whose key is not below that of lo, which has none itself. */
  lemma FirstIndex(e: Entries, s: Shape, own: Owners, z: Sizes, asc: Links, desc: Links, first: nat, last: nat, l: seq<nat>,
                   i: nat, lo: nat)
    requires Agrees(e, s, own, z) && Chained(e, asc, desc, first, last, l) && i <= |l| && KeyOf(lo) + 1 !in e
    requires (forall k :: 0 <= k < i ==> l[k] < KeyOf(lo) + 1) && (i < |l| ==> KeyOf(lo) + 1 <= l[i])
    ensures i < |l| ==> 1 <= l[i] && NoneIn(s, lo, Address(l[i] - 1, 0)) && lo <= Address(l[i] - 1, 0)
    ensures i == |l| ==> NoneFrom(s, lo)
  {
    assert i < |l| ==> l[i] in e;
    if i < |l| { AddressOrder(l[i] - 1, lo); }
    forall q: nat | lo <= q && (i < |l| ==> q < Address(l[i] - 1, 0)) ensures !IsUsed(s, q) {
      KeyUp(lo, q);
      if i < |l| { AddressOrder(l[i] - 1, q); }
      Gap(e, asc, desc, first, last, l, i, q);
      HeaderAt(e, s, own, z, q);
    }
  }

  lemma KeyUp(p: nat, q: nat)
    requires p <= q
    ensures KeyOf(p) <= KeyOf(q)
  {
    AddressOrder(KeyOf(p), q);
    AddressOrder(KeyOf(p), p);
  }

  /** GC_next_used_block stands at place j of bottom index bi, the i-th; it has seen no used block from h on. */
  ghost predicate Ahead(s: Shape, l: seq<nat>, h: nat, bi: nat, i: nat, j: nat) {
    && i <= |l| && bi == Elem(l, i) && j < BOTTOM_SZ
    && if i == |l| then NoneFrom(s, h) else 1 <= bi && NoneIn(s, h, Address(bi - 1, j)) && h <= Address(bi - 1, j)
  }

  lemma AheadAt(e: Entries, asc: Links, desc: Links, first: nat, last: nat, s: Shape, l: seq<nat>, h: nat, bi: nat, i: nat, j: nat)
    requires Chained(e, asc, desc, first, last, l) && Ahead(s, l, h, bi, i, j)
    ensures bi == 0 ==> NoneFrom(s, h)
    ensures bi != 0 ==> i < |l| && bi in e && |e[bi]| == BOTTOM_SZ && bi in asc
    ensures bi != 0 ==> NoneIn(s, h, Address(bi - 1, j)) && h <= Address(bi - 1, j)
  {
    if i < |l| { ChainAt(e, asc, desc, first, last, l, i); }
  }

  lemma AheadStart(e: Entries, asc: Links, desc: Links, first: nat, last: nat, s: Shape, l: seq<nat>, h: nat) returns (i: nat)
    requires Chained(e, asc, desc, first, last, l) && KeyOf(h) + 1 in e
    ensures Ahead(s, l, h, KeyOf(h) + 1, i, PlaceOf(h))
  {
    i :| i < |l| && l[i] == KeyOf(h) + 1;
    AddressJoin(h);
  }

  lemma AheadNext(e: Entries, s: Shape, own: Owners, z: Sizes, asc: Links, desc: Links, first: nat, last: nat, l: seq<nat>,
                  h: nat, bi: nat, i: nat, j0: nat, j: nat)
    requires Agrees(e, s, own, z) && Chained(e, asc, desc, first, last, l)
    requires Ahead(s, l, h, bi, i, j0) && bi != 0 && BOTTOM_SZ <= j && NoneIn(s, h, Address(bi - 1, j))
    ensures bi in asc && Ahead(s, l, h, asc[bi], i + 1, 0)
  {
    if i < |l| { ChainAt(e, asc, desc, first, last, l, i); }
    NextIndex(e, s, own, z, asc, desc, first, last, l, i, h, j);
  }

  // ---------- the search downwards ----------

  /** No block starts after lo, up to h. */
  ghost predicate NoStartIn(s: Shape, lo: int, h: nat) {
    forall q: nat :: lo < q <= h ==> q !in s
  }

  /** GC_prev_block stands at place j of bottom index bi, the one before the i-th; it has seen no block up to h. */
  ghost predicate Behind(s: Shape, l: seq<nat>, h: nat, bi: nat, i: nat, j: int) {
    && i <= |l| && bi == PrevOf(l, i) && j < BOTTOM_SZ
    && if i == 0 then NoStartIn(s, -1, h) else 1 <= bi && NoStartIn(s, Address(bi - 1, j), h) && Address(bi - 1, j) <= h
  }

  /** How far GC_prev_block goes down from an entry that is not a header. */
  function Back(x: Entry): nat { if x.Forward? then x.k else 1 }

  lemma BackOk(e: Entries, s: Shape, own: Owners, z: Sizes, p: nat, h: nat)
    requires Agrees(e, s, own, z) && !Hdr(e, p).Header? && NoStartIn(s, p, h)
    ensures 1 <= Back(Hdr(e, p)) && NoStartIn(s, p - Back(Hdr(e, p)), h)
  {
    if Hdr(e, p).Forward? { ForwardAt(e, s, own, z, p); } else { NilAt(e, s, own, z, p); }
  }

  lemma BehindAt(e: Entries, asc: Links, desc: Links, first: nat, last: nat, s: Shape, l: seq<nat>, h: nat, bi: nat, i: nat, j: int)
    requires Chained(e, asc, desc, first, last, l) && Behind(s, l, h, bi, i, j)
    ensures bi == 0 ==> NoStartIn(s, -1, h)
    ensures bi != 0 ==> 0 < i && bi in e && |e[bi]| == BOTTOM_SZ && bi in desc
    ensures bi != 0 ==> NoStartIn(s, Address(bi - 1, j), h) && Address(bi - 1, j) <= h
  {
    if 0 < i { ChainAt(e, asc, desc, first, last, l, i - 1); }
  }

  lemma BehindStart(e: Entries, asc: Links, desc: Links, first: nat, last: nat, s: Shape, l: seq<nat>, h: nat) returns (i: nat)
    requires Chained(e, asc, desc, first, last, l) && KeyOf(h) + 1 in e
    ensures Behind(s, l, h, KeyOf(h) + 1, i, PlaceOf(h))
  {
    var k: nat :| k < |l| && l[k] == KeyOf(h) + 1;
    i := k + 1;
    AddressJoin(h);
  }

  /** Going down to the previous bottom index: between the two there is nothing. */
  lemma BehindNext(e: Entries, s: Shape, own: Owners, z: Sizes, asc: Links, desc: Links, first: nat, last: nat, l: seq<nat>,
                   h: nat, bi: nat, i: nat, j: int)
    requires Agrees(e, s, own, z) && Chained(e, asc, desc, first, last, l)
    requires i <= |l| && 0 < i && bi == l[i - 1] && 1 <= bi && j < 0 && NoStartIn(s, Address(bi - 1, j), h) && KeyOf(h) + 1 >= bi
    ensures bi in desc && Behind(s, l, h, desc[bi], i - 1, BOTTOM_SZ - 1)
  {
    ChainAt(e, asc, desc, first, last, l, i - 1);
    BehindGap(e, s, own, z, asc, desc, first, last, l, h, bi, i - 1, Address(bi - 1, j));
  }

  /** Below address a, which is not above the bottom index named bi, the next thing is the one before the i-th. */
  lemma BehindGap(e: Entries, s: Shape, own: Owners, z: Sizes, asc: Links, desc: Links, first: nat, last: nat, l: seq<nat>,
                  h: nat, bi: nat, i: nat, a: int)
    requires Agrees(e, s, own, z) && Chained(e, asc, desc, first, last, l) && i <= |l| && 1 <= bi
    requires (forall k :: 0 <= k < i ==> l[k] < bi) && (i < |l| ==> bi <= l[i]) && KeyOf(h) + 1 >= bi
    requires NoStartIn(s, a, h) && (a < Address(bi - 1, 0) || (bi !in e && a < Address(bi - 1, BOTTOM_SZ)))
    ensures Behind(s, l, h, PrevOf(l, i), i, BOTTOM_SZ - 1)
  {
    if 0 < i {
      ChainAt(e, asc, desc, first, last, l, i - 1);
      AddressBelow(l[i - 1] - 1, bi - 1, h);
    }
    forall q: nat | q <= h && (0 < i ==> Address(l[i - 1] - 1, BOTTOM_SZ - 1) < q) ensures q !in s {
      if q <= a { InGap(e, s, own, z, asc, desc, first, last, l, bi, i, q); }
    }
  }

  lemma AddressBelow(k: nat, key: nat, h: nat)
    requires k < key <= KeyOf(h)
    ensures Address(k, BOTTOM_SZ - 1) <= h
  {
    AddressOrder(key, h);
    MulMono(k + 1, key, BOTTOM_SZ);
  }

  lemma InGap(e: Entries, s: Shape, own: Owners, z: Sizes, asc: Links, desc: Links, first: nat, last: nat, l: seq<nat>,
              bi: nat, i: nat, q: nat)
    requires Agrees(e, s, own, z) && Chained(e, asc, desc, first, last, l) && i <= |l| && 1 <= bi
    requires (forall k :: 0 <= k < i ==> l[k] < bi) && (i < |l| ==> bi <= l[i])
    requires q < Address(bi - 1, 0) || (bi !in e && q < Address(bi - 1, BOTTOM_SZ))
    requires 0 < i ==> 1 <= l[i - 1] && Address(l[i - 1] - 1, BOTTOM_SZ - 1) < q
    ensures q !in s
  {
    AddressOrder(bi - 1, q);
    if 0 < i { AddressOrder(l[i - 1] - 1, q); }
    if i < |l| { ChainAt(e, asc, desc, first, last, l, i); }
    assert KeyOf(q) + 1 <= bi;
    hide Agrees, Address, KeyOf;
    Gap(e, asc, desc, first, last, l, i, q);
    HeaderAt(e, s, own, z, q);
  }

  // ---------- visiting all blocks ----------

  /** v holds the blocks in use below a, and those after b and before c, once each. */
  ghost predicate Seen(s: Shape, v: seq<nat>, a: int, b: int, c: int) {
    NoDup(v) && forall p: nat :: p in v <==> IsUsed(s, p) && (p < a || b < p < c)
  }

  ghost predicate SeenAll(s: Shape, v: seq<nat>) {
    NoDup(v) && forall p: nat :: p in v <==> IsUsed(s, p)
  }

  lemma SeeHeader(e: Entries, s: Shape, own: Owners, z: Sizes, v: seq<nat>, a: int, p: nat, c: int)
    requires Agrees(e, s, own, z) && Seen(s, v, a, p, c) && Hdr(e, p).Header? && a <= p < c
    ensures Seen(s, if Hdr(e, p).free then v else v + [p], a, p - 1, c)
  {
    HeaderAt(e, s, own, z, p);
    assert p !in v;
  }

  lemma SeeOther(e: Entries, s: Shape, own: Owners, z: Sizes, v: seq<nat>, a: int, p: nat, c: int)
    requires Agrees(e, s, own, z) && Seen(s, v, a, p, c) && !Hdr(e, p).Header?
    ensures 1 <= Back(Hdr(e, p)) && Seen(s, v, a, p - Back(Hdr(e, p)), c)
  {
    if Hdr(e, p).Forward? { ForwardAt(e, s, own, z, p); } else { NilAt(e, s, own, z, p); }
  }

  /** From one bottom index to the next. */
  lemma SeeNext(e: Entries, s: Shape, own: Owners, z: Sizes, asc: Links, desc: Links, first: nat, last: nat, l: seq<nat>,
                i: nat, v: seq<nat>, b: int)
    requires Agrees(e, s, own, z) && Chained(e, asc, desc, first, last, l) && i < |l| && 1 <= l[i]
    requires Seen(s, v, Address(l[i] - 1, 0), b, Address(l[i] - 1, BOTTOM_SZ)) && b < Address(l[i] - 1, 0)
    ensures SeenFrom(s, v, l, i + 1)
  {
    if i + 1 < |l| { ChainAt(e, asc, desc, first, last, l, i + 1); }
    if i + 1 < |l| { MulMono(l[i], l[i + 1] - 1, BOTTOM_SZ); }
    forall p: nat | IsUsed(s, p) && Address(l[i] - 1, BOTTOM_SZ) <= p ensures i + 1 < |l| && Address(l[i + 1] - 1, 0) <= p {
      UsedBehind(e, s, own, z, asc, desc, first, last, l, i, p);
    }
  }

  lemma UsedBehind(e: Entries, s: Shape, own: Owners, z: Sizes, asc: Links, desc: Links, first: nat, last: nat, l: seq<nat>, i: nat, p: nat)
    requires Agrees(e, s, own, z) && Chained(e, asc, desc, first, last, l) && i < |l| && 1 <= l[i]
    requires IsUsed(s, p) && Address(l[i] - 1, BOTTOM_SZ) <= p
    ensures i + 1 < |l| && 1 <= l[i + 1] && Address(l[i + 1] - 1, 0) <= p
  {
    AddressOrder(l[i] - 1, p);
    HeaderAt(e, s, own, z, p);
    if i + 1 < |l| {
      ChainAt(e, asc, desc, first, last, l, i + 1);
      AddressOrder(l[i + 1] - 1, p);
    }
    hide Agrees, Address;
    var n: nat := i + 1;
    if n == |l| || KeyOf(p) + 1 < l[n] { Gap(e, asc, desc, first, last, l, n, p); }
  }

  /** The visit is about to start on the i-th bottom index. */
  ghost predicate SeenFrom(s: Shape, v: seq<nat>, l: seq<nat>, i: nat) {
    i <= |l| && if i == |l| then SeenAll(s, v)
    else 1 <= l[i] && Seen(s, v, Address(l[i] - 1, 0), Address(l[i] - 1, BOTTOM_SZ - 1), Address(l[i] - 1, BOTTOM_SZ))
  }

  lemma SeeFirst(e: Entries, s: Shape, own: Owners, z: Sizes, asc: Links, desc: Links, first: nat, last: nat, l: seq<nat>)
    requires Agrees(e, s, own, z) && Chained(e, asc, desc, first, last, l)
    ensures SeenFrom(s, [], l, 0) && first == Elem(l, 0)
  {
    if 0 < |l| { ChainAt(e, asc, desc, first, last, l, 0); }
    forall p: nat | IsUsed(s, p) ensures 0 < |l| && Address(l[0] - 1, 0) <= p {
      HeaderAt(e, s, own, z, p);
      if 0 < |l| { AddressOrder(l[0] - 1, p); }
      if |l| == 0 || KeyOf(p) + 1 < l[0] { Gap(e, asc, desc, first, last, l, 0, p); }
    }
  }

  lemma SeenStart(e: Entries, asc: Links, desc: Links, first: nat, last: nat, s: Shape, v: seq<nat>, l: seq<nat>, i: nat)
    requires Chained(e, asc, desc, first, last, l) && SeenFrom(s, v, l, i)
    ensures Elem(l, i) == 0 ==> SeenAll(s, v)
    ensures Elem(l, i) != 0 ==> i < |l| && l[i] in e && |e[l[i]]| == BOTTOM_SZ && l[i] in asc && asc[l[i]] == Elem(l, i + 1)
    ensures Elem(l, i) != 0 ==> Seen(s, v, Address(l[i] - 1, 0), Address(l[i] - 1, BOTTOM_SZ - 1), Address(l[i] - 1, BOTTOM_SZ))
  {
    if i < |l| { ChainAt(e, asc, desc, first, last, l, i); }
  }
}
