/**
How the header index follows the partition of the heap: the headers that GC_allochblk and GC_freehblk
(libs/gc/allchblk.c:494-564, 644-889) install, remove and rewrite keep the two in agreement.
 */
module IndexSteps {
  import opened HeapShape
  import opened HeaderIndex
  import Arithmetic

  function Bytes(n: nat): nat { n * HBLKSIZE }

  lemma BytesToBlocks(n: nat)
    requires 1 <= n
    ensures 1 <= Bytes(n) && ToBlocks(Bytes(n)) == n
  {
    assert Bytes(n) + HBLKSIZE - 1 == n * HBLKSIZE + (HBLKSIZE - 1);
    Arithmetic.DivModUnique(Bytes(n) + HBLKSIZE - 1, HBLKSIZE, n, HBLKSIZE - 1);
    Arithmetic.MulMono(1, n, HBLKSIZE);
  }

  // ---------- the header of a block changes, not its extent ----------

  /** Block b is used for objects of z' bytes, or free. */
  ghost predicate Relabelled(e: Entries, e': Entries, s: Shape, b: nat, x: Blk, z': nat) {
    b in s && forall q: nat {:trigger Hdr(e', q)} :: Hdr(e', q) == Label(e, b, x, z', q)
  }

  function Label(e: Entries, b: nat, x: Blk, z': nat, q: nat): Entry {
    if q == b then Header(z', x.free)
    else if b < q < b + x.sz then (if x.free then Nil else Forward(Count(q - b)))
    else Hdr(e, q)
  }

  lemma Relabel(e: Entries, e': Entries, s: Shape, own: Owners, z: Sizes, b: nat, x: Blk, z': nat)
    requires Agrees(e, s, own, z) && Relabelled(e, e', s, b, x, z') && x.sz == s[b].sz
    requires 1 <= z' && ToBlocks(z') == x.sz && (x.free ==> z' == Bytes(x.sz))
    ensures Agrees(e', s[b := x], own, z[b := z'])
  {
    var t, y := s[b := x], z[b := z'];
    forall c: nat, q: nat ensures Inside(t, c, q) <==> Inside(s, c, q) {}
    forall q: nat ensures Hdr(e', q) == EntryFor(t, own, y, q) {
      assert Hdr(e, q) == EntryFor(s, own, z, q);
      assert Inside(s, b, b);
      if q in own { assert Inside(s, own[q], q); }
      if b < q < b + x.sz { assert Inside(s, b, q); }
    }
  }

  lemma RelabelKeeps(e: Entries, s: Shape, own: Owners, z: Sizes, b: nat, x: Blk, z': nat)
    requires Agrees(e, s, own, z) && b in s
    ensures KeepsSizes(s, z, s[b := x], z[b := z'], if s[b].free then 0 else b)
  {
  }

  // ---------- a free block is cut in two ----------

  ghost predicate CutAt(e: Entries, e': Entries, f: nat, r: nat, end: nat) {
    && f < r < end && Hdr(e', f) == Header(Bytes(r - f), true) && Hdr(e', r) == Header(Bytes(end - r), true)
    && forall q: nat {:trigger Hdr(e', q)} :: q != f && q != r ==> Hdr(e', q) == Hdr(e, q)
  }

  function Cut(s: Shape, f: nat, r: nat): Shape
    requires f in s && f < r < f + s[f].sz
  {
    s[f := Blk(r - f, true)][r := Blk(f + s[f].sz - r, true)]
  }

  ghost function CutOwners(s: Shape, own: Owners, f: nat, r: nat): Owners
    requires f in s
  {
    map q: nat | q in own :: if r <= q < f + s[f].sz then r else own[q]
  }

  lemma CutTiled(s: Shape, own: Owners, f: nat, r: nat)
    requires Tiled(s, own) && f in s && f < r < f + s[f].sz
    ensures Tiled(Cut(s, f, r), CutOwners(s, own, f, r)) && CutOwners(s, own, f, r).Keys == own.Keys && r !in s
  {
    var t, o := Cut(s, f, r), CutOwners(s, own, f, r);
    NoneWithin(s, own, f);
    forall b: nat, p: nat | Inside(t, b, p) ensures p in o && o[p] == b {
      if b == f || b == r { assert Inside(s, f, p); } else { assert Inside(s, b, p); }
    }
    forall p: nat | p in o ensures Inside(t, o[p], p) { assert Inside(s, own[p], p); }
  }

  function CutSizes(z: Sizes, f: nat, r: nat, end: nat): Sizes
    requires f <= r <= end
  {
    z[f := Bytes(r - f)][r := Bytes(end - r)]
  }

  lemma CutSizesOk(s: Shape, z: Sizes, f: nat, r: nat)
    requires SizesOk(s, z) && f in s && f < r < f + s[f].sz
    ensures SizesOk(Cut(s, f, r), CutSizes(z, f, r, f + s[f].sz))
  {
    BytesToBlocks(r - f);
    BytesToBlocks(f + s[f].sz - r);
    hide ToBlocks;
  }

  /** Every block has a size. */
  lemma HaveSizes(s: Shape, z: Sizes)
    requires SizesOk(s, z)
    ensures forall b: nat :: b in s ==> b in z
  {
  }

  lemma CutAgrees(e: Entries, e': Entries, s: Shape, own: Owners, z: Sizes, f: nat, r: nat)
    requires Agrees(e, s, own, z) && IsFree(s, f) && f < r < f + s[f].sz && CutAt(e, e', f, r, f + s[f].sz)
    ensures Agrees(e', Cut(s, f, r), CutOwners(s, own, f, r), CutSizes(z, f, r, f + s[f].sz))
  {
    var end := f + s[f].sz;
    var t, o, y := Cut(s, f, r), CutOwners(s, own, f, r), CutSizes(z, f, r, end);
    CutTiled(s, own, f, r);
    CutSizesOk(s, z, f, r);
    HaveSizes(s, z);
    hide SizesOk, Bytes, Hdr, ToBlocks;
    forall q: nat ensures Hdr(e', q) == EntryFor(t, o, y, q) {
      assert Hdr(e, q) == EntryFor(s, own, z, q);
      assert Inside(s, f, f) && Inside(s, f, r);
      if q in own { assert Inside(s, own[q], q); }
      if f <= q < end { assert Inside(s, f, q); }
    }
  }

  lemma CutKeeps(e: Entries, s: Shape, own: Owners, z: Sizes, f: nat, r: nat)
    requires Agrees(e, s, own, z) && IsFree(s, f) && f < r < f + s[f].sz
    ensures KeepsSizes(s, z, Cut(s, f, r), CutSizes(z, f, r, f + s[f].sz), 0)
  {
    CutTiled(s, own, f, r);
    HaveSizes(s, z);
    hide Bytes, ToBlocks, Tiled;
  }

  // ---------- a free block absorbs the free block after it ----------

  ghost predicate AbsorbedNext(e: Entries, e': Entries, s: Shape, b: nat) {
    && b in s && b + s[b].sz in s && Hdr(e', b) == Header(Bytes(s[b].sz + s[b + s[b].sz].sz), true)
    && (b + s[b].sz != b ==> Hdr(e', b + s[b].sz) == Nil)
    && forall q: nat {:trigger Hdr(e', q)} :: q != b && q != b + s[b].sz ==> Hdr(e', q) == Hdr(e, q)
  }

  lemma AbsorbAgrees(e: Entries, e': Entries, s: Shape, own: Owners, z: Sizes, b: nat)
    requires Agrees(e, s, own, z) && IsFree(s, b) && IsFree(s, b + s[b].sz) && AbsorbedNext(e, e', s, b)
    ensures 1 <= s[b].sz
    ensures Agrees(e', AbsorbNext(s, b), AbsorbOwners(s, own, b), z[b := Bytes(s[b].sz + s[b + s[b].sz].sz)])
  {
    var next := b + s[b].sz;
    var size := s[b].sz + s[next].sz;
    var t, o, y := AbsorbNext(s, b), AbsorbOwners(s, own, b), z[b := Bytes(size)];
    AbsorbNextTiled(s, own, b);
    BytesToBlocks(size);
    assert SizesOk(t, y);
    HaveSizes(s, z);
    hide SizesOk, Bytes, Hdr, ToBlocks;
    forall q: nat ensures Hdr(e', q) == EntryFor(t, o, y, q) {
      assert Hdr(e, q) == EntryFor(s, own, z, q);
      assert Inside(s, b, b) && Inside(s, next, next);
      if q in own { assert Inside(s, own[q], q); }
    }
  }

  lemma AbsorbKeeps(e: Entries, s: Shape, own: Owners, z: Sizes, b: nat)
    requires Agrees(e, s, own, z) && IsFree(s, b) && IsFree(s, b + s[b].sz)
    ensures KeepsSizes(s, z, AbsorbNext(s, b), z[b := Bytes(s[b].sz + s[b + s[b].sz].sz)], 0)
  {
    HaveSizes(s, z);
    hide Bytes, ToBlocks, Tiled;
  }

  // ---------- a new section ----------

  lemma AddedAgrees(e: Entries, e': Entries, s: Shape, own: Owners, z: Sizes, b: nat, n: nat)
    requires Agrees(e, s, own, z) && 1 <= b && 1 <= n && own.Keys !! Range(b, n)
    requires forall q: nat {:trigger Hdr(e', q)} :: Hdr(e', q) == if q == b then Header(Bytes(n), true) else Hdr(e, q)
    ensures b !in s && Agrees(e', s[b := Blk(n, true)], WithRange(own, b, n), z[b := Bytes(n)])
  {
    var t, o, y := s[b := Blk(n, true)], WithRange(own, b, n), z[b := Bytes(n)];
    SectionTiles(s, own, b, n, true);
    BytesToBlocks(n);
    assert SizesOk(t, y);
    HaveSizes(s, z);
    hide SizesOk, Bytes, Hdr, ToBlocks;
    forall q: nat ensures Hdr(e', q) == EntryFor(t, o, y, q) {
      assert Hdr(e, q) == EntryFor(s, own, z, q);
      assert q in Range(b, n) <==> Between(b, n, q);
      if q in own { assert Inside(s, own[q], q); }
    }
  }

  lemma NewPagesNil(e: Entries, s: Shape, own: Owners, z: Sizes, b: nat, n: nat)
    requires Agrees(e, s, own, z) && own.Keys !! Range(b, n)
    ensures forall q: nat :: b <= q < b + n ==> Hdr(e, q).Nil?
  {
    forall q: nat | b <= q < b + n ensures Hdr(e, q).Nil? { assert Between(b, n, q) && Hdr(e, q) == EntryFor(s, own, z, q); }
  }

  lemma AddedKeeps(e: Entries, s: Shape, own: Owners, z: Sizes, b: nat, n: nat)
    requires Agrees(e, s, own, z) && b !in s
    ensures KeepsSizes(s, z, s[b := Blk(n, true)], z[b := Bytes(n)], 0)
  {
  }

  // ---------- a free block is given up ----------

  ghost function ShatterSizes(s: Shape, z: Sizes, f: nat): Sizes
    requires f in s
  {
    z + (map p: nat | f <= p < f + s[f].sz && Inside(s, f, p) :: Bytes(1))
  }

  lemma ShatterSizesOk(s: Shape, z: Sizes, f: nat)
    requires SizesOk(s, z) && f in s
    ensures SizesOk(Shatter(s, f), ShatterSizes(s, z, f))
  {
    BytesToBlocks(1);
    hide ToBlocks, Bytes;
  }

  lemma ShatterAgrees(e: Entries, e': Entries, s: Shape, own: Owners, z: Sizes, f: nat)
    requires Agrees(e, s, own, z) && IsFree(s, f)
    requires forall q: nat {:trigger Hdr(e', q)} :: Hdr(e', q) == if f <= q < f + s[f].sz then Header(Bytes(1), false) else Hdr(e, q)
    ensures Agrees(e', Shatter(s, f), ShatterOwners(s, own, f), ShatterSizes(s, z, f))
  {
    var t, o, y := Shatter(s, f), ShatterOwners(s, own, f), ShatterSizes(s, z, f);
    ShatterTiled(s, own, f);
    NoneWithin(s, own, f);
    ShatterSizesOk(s, z, f);
    HaveSizes(s, z);
    hide SizesOk, Bytes, Hdr, ToBlocks;
    forall q: nat ensures Hdr(e', q) == EntryFor(t, o, y, q) {
      assert Hdr(e, q) == EntryFor(s, own, z, q);
      assert f <= q < f + s[f].sz <==> Inside(s, f, q);
      if q in own { assert Inside(s, own[q], q); }
    }
  }

  lemma ShatterKeeps(e: Entries, s: Shape, own: Owners, z: Sizes, f: nat)
    requires Agrees(e, s, own, z) && IsFree(s, f)
    ensures KeepsSizes(s, z, Shatter(s, f), ShatterSizes(s, z, f), 0) && NewSizes(s, Shatter(s, f), ShatterSizes(s, z, f), 0, 0)
  {
    NoneWithin(s, own, f);
    HaveSizes(s, z);
    hide ToBlocks, Tiled;
  }

  // ---------- the steps of allocation and deallocation together ----------

  lemma CarveNew(s: Shape, f: nat, r: nat, n: nat, y: Sizes, bytes: nat)
    requires IsFree(s, f) && f <= r && 1 <= n && r + n <= f + s[f].sz && r in y && y[r] == bytes
    ensures NewSizes(s, Carve(s, f, r, n), y, r, bytes)
  {
  }

  /** A free block is cut at r, unless it starts there; then behind n pages, unless it ends there. */
  ghost function CutBefore(s: Shape, f: nat, r: nat): Shape
    requires f in s && f <= r < f + s[f].sz
  {
    if f < r then Cut(s, f, r) else s
  }

  ghost function CutBehind(s: Shape, r: nat, n: nat): Shape
    requires r in s && 1 <= n <= s[r].sz
  {
    if n < s[r].sz then Cut(s, r, r + n) else s
  }

  /** The three steps make the partition that Carve describes. */
  lemma CarveInSteps(s: Shape, f: nat, r: nat, n: nat)
    requires IsFree(s, f) && f <= r && 1 <= n && r + n <= f + s[f].sz
    ensures var s1 := CutBefore(s, f, r);
      && IsFree(s1, r) && r + s1[r].sz == f + s[f].sz
      && var s2 := CutBehind(s1, r, n);
        IsFree(s2, r) && s2[r].sz == n && s2[r := Blk(n, false)] == Carve(s, f, r, n)
  {
  }

  /** Freeing in steps: flag, absorb the successor, be absorbed by the predecessor. */
  lemma ReleaseInSteps(s: Shape, b: nat, p: nat)
    requires IsUsed(s, b) && 1 <= s[b].sz && (p != 0 ==> IsFree(s, p) && p < b && p + s[p].sz == b && 1 <= s[p].sz)
    ensures var s1 := s[b := Blk(s[b].sz, true)];
      var s2 := if IsFree(s1, b + s[b].sz) then AbsorbNext(s1, b) else s1;
      && s2 == ReleaseRight(s, b) && b in s2 && s2[b].free && (p != 0 ==> p in s2 && s2[p] == s[p])
      && (if p != 0 then AbsorbNext(s2, p) else s2) == Release(s, b, p)
  {
  }
}
