/** The two-level header index, updated in place, and the searches in it (libs/gc/headers.c:190-403). */
module HeaderTables {
  import opened Arithmetic
  import opened HeapShape
  import opened FreeLists
  import opened HeaderIndex
  import opened IndexSteps
  import opened ObjectBase

  /** The blocks up to BOTTOM_SZ further on have the key of h or that of the last of them. */
  lemma NextKey(h: nat)
    ensures forall p: nat :: h <= p < h + BOTTOM_SZ ==> KeyOf(p) == KeyOf(h) || KeyOf(p) == KeyOf(h + BOTTOM_SZ)
  {
    forall p: nat | h <= p < h + BOTTOM_SZ ensures KeyOf(p) == KeyOf(h) || KeyOf(p) == KeyOf(h + BOTTOM_SZ) {
      KeyNear(h, p);
    }
  }

  lemma KeyNear(h: nat, p: nat)
    requires h <= p < h + BOTTOM_SZ
    ensures KeyOf(h + BOTTOM_SZ) == KeyOf(h) + 1 && KeyOf(h) <= KeyOf(p) <= KeyOf(h) + 1
  {
    AddressJoin(h);
    DivModUnique(h + BOTTOM_SZ, BOTTOM_SZ, KeyOf(h) + 1, PlaceOf(h));
    KeyUp(h, p);
    KeyUp(p, h + BOTTOM_SZ);
  }

  lemma AddressUp(key: nat, j: int, k: int)
    requires j <= k
    ensures Address(key, j) <= Address(key, k)
  {
  }

  lemma KeysMonotone()
    ensures forall p: nat, q: nat :: p <= q ==> KeyOf(p) <= KeyOf(q)
  {
    forall p: nat, q: nat | p <= q ensures KeyOf(p) <= KeyOf(q) { KeyUp(p, q); }
  }

  lemma BelowAll(e: Entries, asc: Links, desc: Links, first: nat, last: nat, l: seq<nat>, i: nat, n: nat)
    requires Chained(e, asc, desc, first, last, l) && i <= |l| && n !in e
    requires (0 < i ==> l[i - 1] <= n) && (i < |l| ==> n < l[i])
    ensures forall k :: 0 <= k < i ==> l[k] < n
  {
    forall k | 0 <= k < i ensures l[k] < n { assert l[k] in l && l[k] <= l[i - 1]; }
  }

  lemma BehindKey(s: Shape, l: seq<nat>, h: nat, bi: nat, i: nat, j: int)
    requires Behind(s, l, h, bi, i, j) && bi != 0 && 0 <= j
    ensures 0 < i <= |l| && bi == l[i - 1] && KeyOf(h) + 1 >= bi
  {
    AddressOrder(bi - 1, h);
    AddressUp(bi - 1, 0, j);
  }

  lemma HdrKnown(e: Entries, p: nat)
    requires !Hdr(e, p).Nil?
    ensures KeyOf(p) + 1 in e
  {
  }

  /** What the header of a free block says. */
  lemma FreeSize(e: Entries, s: Shape, own: Owners, z: Sizes, b: nat)
    requires Agrees(e, s, own, z) && IsFree(s, b)
    ensures Tiled(s, own) && 1 <= b && 1 <= s[b].sz
    ensures Hdr(e, b) == Header(Bytes(s[b].sz), true) && Hdr(e, b).sz / HBLKSIZE == s[b].sz
  {
    HeaderAt(e, s, own, z, b);
    DivModUnique(z[b], HBLKSIZE, s[b].sz, 0);
  }

  /** What the header of a used block says, and that the rest of the block is not empty in the index. */
  lemma UsedSize(e: Entries, s: Shape, own: Owners, z: Sizes, b: nat)
    requires Agrees(e, s, own, z) && IsUsed(s, b)
    ensures Tiled(s, own) && 1 <= b && 1 <= s[b].sz && Hdr(e, b).Header? && ToBlocks(Hdr(e, b).sz) == s[b].sz
    ensures forall p: nat :: b < p < b + s[b].sz ==> !Hdr(e, p).Nil?
  {
    HeaderAt(e, s, own, z, b);
    forall p: nat | b < p < b + s[b].sz ensures !Hdr(e, p).Nil? { assert Inside(s, b, p); }
  }

  lemma BytesSum(m: nat, n: nat)
    ensures Bytes(m) + Bytes(n) == Bytes(m + n)
  {
  }

  lemma FlaggedTiled(s: Shape, own: Owners, b: nat)
    requires Tiled(s, own) && b in s
    ensures Tiled(s[b := Blk(s[b].sz, true)], own)
  {
    var t := s[b := Blk(s[b].sz, true)];
    assert forall c: nat, q: nat :: Inside(t, c, q) <==> Inside(s, c, q);
  }

  lemma BeforeFlag(s: Shape, own: Owners, b: nat, p: nat)
    requires Tiled(s, own) && IsUsed(s, b) && FreeBefore(s[b := Blk(s[b].sz, true)], b, p)
    ensures FreeBefore(s, b, p) && (p != 0 ==> p < b && 1 <= s[p].sz)
  {
    var t := s[b := Blk(s[b].sz, true)];
    if p == 0 {
      forall q: nat | IsFree(s, q) ensures q + s[q].sz != b { assert IsFree(t, q); }
    }
  }

  lemma PlaceOfBefore(s: Shape, b: nat, p: nat)
    requires FreeBefore(s, b, p)
    ensures p != 0 ==> IsFree(s, p) && p + s[p].sz == b
  {
  }

  /** q is in the same used block as p, further to its start. */
  ghost predicate SameUse(s: Shape, own: Owners, p: nat, q: nat) {
    p in own && IsUsed(s, own[p]) && q in own && own[q] == own[p]
  }

  /** Following a forwarding count stays in the object. */
  lemma ForwardStep(e: Entries, s: Shape, own: Owners, z: Sizes, p: nat)
    requires Agrees(e, s, own, z) && Hdr(e, p).Forward?
    ensures 1 <= Hdr(e, p).k <= p && SameUse(s, own, p, p - Hdr(e, p).k) && !Hdr(e, p - Hdr(e, p).k).Nil?
  {
    ForwardAt(e, s, own, z, p);
    assert Inside(s, own[p], p);
    assert Inside(s, own[p], p - Hdr(e, p).k);
  }

  /** A header found by following counts back from h - 1. */
  lemma EndsUsed(e: Entries, s: Shape, own: Owners, z: Sizes, h: nat, p: nat)
    requires Agrees(e, s, own, z) && h in s && 1 <= h && p <= h - 1 && Hdr(e, p).Header?
    requires p != h - 1 ==> SameUse(s, own, h - 1, p)
    ensures FreeBefore(s, h, if Hdr(e, p).free then p else 0)
  {
    HeaderAt(e, s, own, z, p);
    assert Inside(s, h, h) && Inside(s, p, p);
    var last: nat := h - 1;
    forall q: nat | IsFree(s, q) && q + s[q].sz == h ensures own[last] == q { assert Inside(s, q, last); }
    NoneWithin(s, own, p);
  }

  /** Nothing is known of h - 1: a free block that ends at h is the last block before it. */
  lemma EndsFree(e: Entries, s: Shape, own: Owners, z: Sizes, h: nat, p: nat)
    requires Agrees(e, s, own, z) && h in s && 1 <= h
    requires if p == 0 then NoStartIn(s, -1, h - 1) else p <= h - 1 && p in s && NoStartIn(s, p, h - 1)
    ensures Hdr(e, p).Header? <==> p != 0
    ensures FreeBefore(s, h, if p != 0 && Hdr(e, p).free && p + Hdr(e, p).sz / HBLKSIZE == h then p else 0)
  {
    HeaderAt(e, s, own, z, p);
    var last: nat := h - 1;
    if p != 0 && s[p].free { FreeSize(e, s, own, z, p); }
    forall q: nat | IsFree(s, q) && q + s[q].sz == h ensures q == p {
      if q < p { assert Inside(s, q, p) && Inside(s, p, p); }
    }
  }

  lemma AgreesTiled(e: Entries, s: Shape, own: Owners, z: Sizes)
    requires Agrees(e, s, own, z)
    ensures Tiled(s, own) && SizesOk(s, z)
  {
  }

  lemma NotNil(e: Entries, s: Shape, own: Owners, z: Sizes, p: nat)
    requires Agrees(e, s, own, z) && !Hdr(e, p).Nil?
    ensures p in own && own[p] <= p && (Hdr(e, p).Forward? ==> IsUsed(s, own[p]))
  {
    if p in own { assert Inside(s, own[p], p); }
  }

  lemma HeaderOwns(s: Shape, own: Owners, b: nat, h: nat)
    requires Tiled(s, own) && b in s && h in own && b in own && own[b] == own[h]
    ensures b == own[h] && Inside(s, b, h)
  {
    assert Inside(s, b, b) && Inside(s, own[h], h);
  }

  lemma NilPage(e: Entries, s: Shape, own: Owners, z: Sizes, p: nat)
    requires Agrees(e, s, own, z) && Hdr(e, PageOf(p)).Nil?
    ensures forall c: nat, j: nat :: !InSlot(s, z, c, j, p)
  {
    NilAt(e, s, own, z, PageOf(p));
    forall c: nat, j: nat ensures !InSlot(s, z, c, j, p) {
      if InSlot(s, z, c, j, p) { SlotPage(s, own, z, c, j, p); }
    }
  }

  lemma FreePage(s: Shape, own: Owners, z: Sizes, p: nat)
    requires Tiled(s, own) && SizesOk(s, z) && PageOf(p) in own && IsFree(s, own[PageOf(p)])
    ensures forall c: nat, j: nat :: !InSlot(s, z, c, j, p)
  {
    forall c: nat, j: nat ensures !InSlot(s, z, c, j, p) {
      if InSlot(s, z, c, j, p) { SlotPage(s, own, z, c, j, p); }
    }
  }

  lemma FirstPageNotZero(b: nat)
    requires 1 <= b
    ensures b * HBLKSIZE >= 1
  {
    MulMono(1, b, HBLKSIZE);
  }

  lemma StartPositive(z: nat, b: nat, i: nat)
    ensures SlotStart(z, b, i) >= b * HBLKSIZE && SlotStart(z, b, 0) == b * HBLKSIZE
  {
    MulMono(0, i, z);
  }

  /** The free block b and the free block behind it, and then the free block p before it, if there are any, as one. */
  function Merged(t: Shape, b: nat, p: nat): Shape
    requires b in t && (p != 0 ==> p in t && p + t[p].sz == b)
  {
    var u := if IsFree(t, b) && 1 <= t[b].sz && IsFree(t, b + t[b].sz) then AbsorbNext(t, b) else t;
    if p != 0 && IsFree(u, p) && 1 <= u[p].sz && IsFree(u, p + u[p].sz) then AbsorbNext(u, p) else u
  }

  lemma MergedLeftOk(t: Shape, b: nat, p: nat)
    requires IsFree(t, b) && 1 <= b && 1 <= t[b].sz && (p != 0 ==> IsFree(t, p) && p + t[p].sz == b && 1 <= t[p].sz)
    ensures var u := if IsFree(t, b + t[b].sz) then AbsorbNext(t, b) else t;
      && IsFree(u, b) && (p != 0 ==> IsFree(u, p) && p + u[p].sz == b)
      && Merged(t, b, p) == if p != 0 then AbsorbNext(u, p) else u
  {
  }

  lemma MergedIs(s: Shape, b: nat, p: nat)
    requires IsUsed(s, b) && 1 <= b && 1 <= s[b].sz && (p != 0 ==> IsFree(s, p) && p < b && p + s[p].sz == b && 1 <= s[p].sz)
    ensures Merged(s[b := Blk(s[b].sz, true)], b, p) == Release(s, b, p)
  {
    ReleaseInSteps(s, b, p);
    MergedLeftOk(s[b := Blk(s[b].sz, true)], b, p);
    hide Merged, Release, ReleaseRight;
  }

  /** An empty table agrees with an empty heap. */
  lemma EmptyAgrees(e: Entries)
    requires forall p: nat :: Hdr(e, p) == Nil
    ensures Agrees(e, map[], map[], map[])
  {
  }

  class HeaderTable {
    var entries: Entries      // the index fields of all bottom indices
    var asc: Links            // asc_link
    var desc: Links           // desc_link
    var first: nat            // GC_all_bottom_indices
    var last: nat             // GC_all_bottom_indices_end
    ghost var l: seq<nat>     // the list of bottom indices

    ghost predicate Valid() reads this { Chained(entries, asc, desc, first, last, l) }

    constructor ()
      ensures Valid() && Agrees(entries, map[], map[], map[])
    {
      entries, asc, desc := map[], map[], map[];
      first, last, l := 0, 0, [];
      new;
      EmptyAgrees(entries);
    }

    /** In get_index: the new bottom index hi goes between pi and p. */
    method LinkIndex(hi: nat, pi: nat, p: nat)
      modifies this`asc, this`desc, this`first, this`last
      ensures asc == AscAfter(old(asc), pi, p, hi) && desc == DescAfter(old(desc), pi, p, hi)
      ensures first == (if pi == 0 then hi else old(first)) && last == (if p == 0 then hi else old(last))
    {
      desc := desc[hi := pi];
      if p == 0 {
        last := hi;
      } else {
        desc := desc[p := hi];
      }
      asc := asc[hi := p];
      if pi == 0 {
        first := hi;
      } else {
        asc := asc[pi := hi];
      }
    }

    /** In get_index: the neighbours of the new bottom index hi in the list. */
    method FindPlace(hi: nat) returns (pi: nat, p: nat, ghost j: nat)
      requires Valid() && hi !in entries
      ensures j <= |l| && pi == PrevOf(l, j) && p == Elem(l, j)
      ensures (forall i :: 0 <= i < j ==> l[i] < hi) && (j < |l| ==> hi < l[j])
    {
      pi, p, j := 0, first, 0;
      assert first == Elem(l, 0);
      hide Chained;
      while p != 0 && p < hi
        invariant j <= |l| && pi == PrevOf(l, j) && p == Elem(l, j)
        invariant forall i :: 0 <= i < j ==> l[i] < hi
        decreases |l| - j
      {
        ChainAt(entries, asc, desc, first, last, l, j);
        pi, p, j := p, asc[p], j + 1;
      }
      if j < |l| { ChainAt(entries, asc, desc, first, last, l, j); }
    }

    /** get_index: make sure that there is a bottom index for block h. */
    method GetIndex(h: nat)
      requires Valid()
      modifies this
      ensures Valid() && entries.Keys == old(entries).Keys + {KeyOf(h) + 1}
      ensures SameHdrs(old(entries), entries)
    {
      assert SameHdrs(entries, entries);
      hide Chained, KeyOf, Hdr, SameHdrs;
      var hi := KeyOf(h) + 1;
      if hi in entries {
        assert entries.Keys == entries.Keys + {hi};
        return;
      }
      var pi, p; ghost var j;
      pi, p, j := FindPlace(hi);
      ChainIn(entries, asc, desc, first, last, l, j, hi);
      EntriesIn(entries, hi);
      hide AscAfter, DescAfter, InsertAt, NoEntries, PrevOf, Elem;
      entries := entries[hi := NoEntries()];
      l := InsertAt(l, j, hi);
      LinkIndex(hi, pi, p);
    }

    /** SET_HDR. */
    method SetHdr(h: nat, x: Entry)
      requires Valid() && KeyOf(h) + 1 in entries
      modifies this`entries
      ensures Valid() && entries.Keys == old(entries).Keys
      ensures forall p: nat {:trigger Hdr(entries, p)} :: Hdr(entries, p) == if p == h then x else Hdr(old(entries), p)
    {
      hide Linked;
      var b := entries[KeyOf(h) + 1];
      assert |b| == BOTTOM_SZ;
      entries := entries[KeyOf(h) + 1 := b[PlaceOf(h) := x]];
      forall p: nat ensures Hdr(entries, p) == if p == h then x else Hdr(old(entries), p) {
        AddressJoin(p);
        AddressJoin(h);
      }
    }

    /** GC_install_header; the caller fills in hb_sz. */
    method InstallHeader(h: nat, sz: nat)
      requires Valid()
      modifies this
      ensures Valid()
      ensures forall p: nat {:trigger Hdr(entries, p)} :: Hdr(entries, p) == if p == h then Header(sz, false) else Hdr(old(entries), p)
    {
      hide Chained, Hdr;
      GetIndex(h);
      SetHdr(h, Header(sz, false));
    }

    /** GC_remove_header. */
    method RemoveHeader(h: nat)
      requires Valid() && Hdr(entries, h).Header?
      modifies this
      ensures Valid()
      ensures forall p: nat {:trigger Hdr(entries, p)} :: Hdr(entries, p) == if p == h then Nil else Hdr(old(entries), p)
    {
      SetHdr(h, Nil);
    }

    /** GC_install_counts: forwarding counts in the blocks after h of an object of n blocks. */
    method InstallCounts(h: nat, n: nat)
      requires Valid() && 1 <= n
      modifies this
      ensures Valid()
      ensures forall p: nat {:trigger Hdr(entries, p)} :: Hdr(entries, p) == if h < p < h + n then Forward(Count(p - h)) else Hdr(old(entries), p)
    {
      IndexRange(h, n);
      hide Chained;
      var hbp := h + 1;
      while hbp < h + n
        invariant Valid() && h < hbp <= h + n
        invariant forall p: nat :: h <= p < h + n ==> KeyOf(p) + 1 in entries
        invariant forall p: nat {:trigger Hdr(entries, p)} :: Hdr(entries, p) == if h < p < hbp then Forward(Count(p - h)) else Hdr(old(entries), p)
      {
        SetHdr(hbp, Forward(Count(hbp - h)));
        hbp := hbp + 1;
      }
    }

    /** The first loop of GC_install_counts: bottom indices for all blocks of the object. */
    method IndexRange(h: nat, n: nat)
      requires Valid() && 1 <= n
      modifies this
      ensures Valid() && SameHdrs(old(entries), entries)
      ensures forall p: nat :: h <= p < h + n ==> KeyOf(p) + 1 in entries
    {
      assert SameHdrs(entries, entries);
      hide Chained;
      var hbp := h;
      while hbp < h + n
        invariant Valid() && h <= hbp && SameHdrs(old(entries), entries)
        invariant forall p: nat :: h <= p < hbp ==> KeyOf(p) + 1 in entries || KeyOf(p) == KeyOf(hbp)
        decreases h + n - hbp
      {
        GetIndex(hbp);
        NextKey(hbp);
        hbp := hbp + BOTTOM_SZ;
      }
      GetIndex(h + n - 1);
      KeysMonotone();
    }

    /**
     * GC_remove_counts.  For a page without a bottom index SET_HDR writes to GC_all_nils, whose entries are
     * nil already; so it is with pages of a section that has just been added.
     */
    method RemoveCounts(h: nat, n: nat)
      requires Valid() && 1 <= n
      modifies this
      ensures Valid()
      ensures forall p: nat {:trigger Hdr(entries, p)} :: Hdr(entries, p) == if h < p < h + n then Nil else Hdr(old(entries), p)
    {
      hide Chained;
      var hbp := h + 1;
      while hbp < h + n
        invariant Valid() && h < hbp && hbp <= h + n
        invariant forall p: nat {:trigger Hdr(entries, p)} :: Hdr(entries, p) == if h < p < hbp then Nil else Hdr(old(entries), p)
      {
        if KeyOf(hbp) + 1 in entries { SetHdr(hbp, Nil); }
        hbp := hbp + 1;
      }
    }

    /** In GC_next_used_block: the first bottom index whose key is not below that of h. */
    method IndexFrom(h: nat, ghost s: Shape, ghost own: Owners, ghost z: Sizes) returns (bi: nat, ghost i: nat)
      requires Valid() && Agrees(entries, s, own, z) && KeyOf(h) + 1 !in entries
      ensures i <= |l| && bi == Elem(l, i)
      ensures if i < |l| then 1 <= l[i] && NoneIn(s, h, Address(l[i] - 1, 0)) && h <= Address(l[i] - 1, 0) else NoneFrom(s, h)
    {
      bi, i := first, 0;
      assert first == Elem(l, 0);
      hide Agrees, IsUsed, Chained;
      while bi != 0 && bi < KeyOf(h) + 1
        invariant i <= |l| && bi == Elem(l, i) && forall k :: 0 <= k < i ==> l[k] < KeyOf(h) + 1
        decreases |l| - i
      {
        ChainAt(entries, asc, desc, first, last, l, i);
        bi, i := asc[bi], i + 1;
      }
      if i < |l| { ChainAt(entries, asc, desc, first, last, l, i); }
      FirstIndex(entries, s, own, z, asc, desc, first, last, l, i, h);
    }

    /** In GC_next_used_block: the scan of one bottom index from place j on. */
    method ScanUp(h: nat, bi: nat, j0: nat, ghost s: Shape, ghost own: Owners, ghost z: Sizes) returns (r: nat, j: nat)
      requires Agrees(entries, s, own, z) && bi != 0 && bi in entries && |entries[bi]| == BOTTOM_SZ
      requires NoneIn(s, h, Address(bi - 1, j0)) && h <= Address(bi - 1, j0)
      ensures r != 0 ==> h <= r && IsUsed(s, r) && NoneIn(s, h, r)
      ensures r == 0 ==> BOTTOM_SZ <= j && NoneIn(s, h, Address(bi - 1, j))
    {
      j := j0;
      while j < BOTTOM_SZ
        invariant NoneIn(s, h, Address(bi - 1, j)) && h <= Address(bi - 1, j)
      {
        var x := entries[bi][j];
        HdrPlace(entries, bi - 1, j);
        ghost var p := Address(bi - 1, j);
        HeaderAt(entries, s, own, z, p);
        if !x.Header? {
          SkipNext(entries, s, own, z, h, p);
          j := j + 1;
        } else if !x.free {
          return Address(bi - 1, j), j;
        } else {
          SkipNext(entries, s, own, z, h, p);
          j := j + x.sz / HBLKSIZE;
        }
      }
      r := 0;
    }

    /** GC_next_used_block: the first block in use that starts at h or later, or 0. */
    method NextUsedBlock(h: nat, ghost s: Shape, ghost own: Owners, ghost z: Sizes) returns (r: nat)
      requires Valid() && Agrees(entries, s, own, z)
      ensures r == 0 ==> NoneFrom(s, h)
      ensures r != 0 ==> h <= r && IsUsed(s, r) && NoneIn(s, h, r)
    {
      var j: nat, bi: nat := PlaceOf(h), KeyOf(h) + 1;
      ghost var i: nat;
      if bi !in entries {
        bi, i := IndexFrom(h, s, own, z);
        j := 0;
      } else {
        i := AheadStart(entries, asc, desc, first, last, s, l, h);
      }
      assert Ahead(s, l, h, bi, i, j);
      hide Chained, Agrees, KeyOf, PlaceOf, Address, NoneIn, NoneFrom, Ahead, IsUsed;
      while bi != 0
        invariant Ahead(s, l, h, bi, i, j) && i <= |l|
        decreases |l| - i
      {
        AheadAt(entries, asc, desc, first, last, s, l, h, bi, i, j);
        ghost var j0 := j;
        r, j := ScanUp(h, bi, j, s, own, z);
        if r != 0 { return; }
        AheadNext(entries, s, own, z, asc, desc, first, last, l, h, bi, i, j0, j);
        j := 0;
        bi, i := asc[bi], i + 1;
      }
      AheadAt(entries, asc, desc, first, last, s, l, h, bi, i, j);
      return 0;
    }

    /** In GC_prev_block: the last bottom index whose key is not above that of h. */
    method IndexUpTo(h: nat, ghost s: Shape, ghost own: Owners, ghost z: Sizes) returns (bi: nat, ghost i: nat)
      requires Valid() && Agrees(entries, s, own, z) && KeyOf(h) + 1 !in entries
      ensures Behind(s, l, h, bi, i, BOTTOM_SZ - 1)
    {
      bi, i := last, |l|;
      assert last == PrevOf(l, |l|);
      hide Agrees, Chained;
      while bi != 0 && bi > KeyOf(h) + 1
        invariant i <= |l| && bi == PrevOf(l, i) && (i < |l| ==> KeyOf(h) + 1 < l[i])
        decreases i
      {
        if 0 < i { ChainAt(entries, asc, desc, first, last, l, i - 1); }
        bi, i := desc[bi], i - 1;
      }
      if 0 < i { ChainAt(entries, asc, desc, first, last, l, i - 1); }
      BelowAll(entries, asc, desc, first, last, l, i, KeyOf(h) + 1);
      AddressOrder(KeyOf(h), h);
      BehindGap(entries, s, own, z, asc, desc, first, last, l, h, KeyOf(h) + 1, i, h);
    }

    /** In GC_prev_block: the scan of one bottom index from place j down. */
    method ScanDown(h: nat, bi: nat, j0: nat, ghost s: Shape, ghost own: Owners, ghost z: Sizes) returns (r: nat, j: int)
      requires Agrees(entries, s, own, z) && bi != 0 && bi in entries && |entries[bi]| == BOTTOM_SZ && j0 < BOTTOM_SZ
      requires NoStartIn(s, Address(bi - 1, j0), h) && Address(bi - 1, j0) <= h
      ensures r != 0 ==> r <= h && r in s && NoStartIn(s, r, h)
      ensures r == 0 ==> j < 0 && NoStartIn(s, Address(bi - 1, j), h)
    {
      j := j0;
      while j >= 0
        invariant j < BOTTOM_SZ && NoStartIn(s, Address(bi - 1, j), h) && Address(bi - 1, j) <= h
      {
        var x := entries[bi][j];
        HdrPlace(entries, bi - 1, j);
        ghost var p := Address(bi - 1, j);
        HeaderAt(entries, s, own, z, p);
        if x.Header? { return Address(bi - 1, j), j; }
        BackOk(entries, s, own, z, p, h);
        if x.Nil? {
          j := j - 1;
        } else {
          j := j - x.k;
        }
      }
      r := 0;
    }

    /** GC_prev_block: the last block, free or not, that starts at h or earlier, or 0. */
    method PrevBlock(h: nat, ghost s: Shape, ghost own: Owners, ghost z: Sizes) returns (r: nat)
      requires Valid() && Agrees(entries, s, own, z)
      ensures r == 0 ==> NoStartIn(s, -1, h)
      ensures r != 0 ==> r <= h && r in s && NoStartIn(s, r, h)
    {
      var j: int, bi: nat := PlaceOf(h), KeyOf(h) + 1;
      ghost var i: nat;
      if bi !in entries {
        bi, i := IndexUpTo(h, s, own, z);
        j := BOTTOM_SZ - 1;
      } else {
        i := BehindStart(entries, asc, desc, first, last, s, l, h);
      }
      hide Chained, Agrees, KeyOf, PlaceOf, NoStartIn, Behind, Address;
      while bi != 0
        invariant Behind(s, l, h, bi, i, j) && i <= |l| && 0 <= j < BOTTOM_SZ
        decreases i
      {
        BehindAt(entries, asc, desc, first, last, s, l, h, bi, i, j);
        BehindKey(s, l, h, bi, i, j);
        r, j := ScanDown(h, bi, j, s, own, z);
        if r != 0 { return; }
        BehindNext(entries, s, own, z, asc, desc, first, last, l, h, bi, i, j);
        j := BOTTOM_SZ - 1;
        bi, i := desc[bi], i - 1;
      }
      BehindAt(entries, asc, desc, first, last, s, l, h, bi, i, j);
      return 0;
    }

    /** In GC_apply_to_all_blocks: the visit of one bottom index, from its end down. */
    method VisitIndex(bi: nat, v0: seq<nat>, ghost s: Shape, ghost own: Owners, ghost z: Sizes) returns (v: seq<nat>, ghost b: int)
      requires Agrees(entries, s, own, z) && bi != 0 && bi in entries && |entries[bi]| == BOTTOM_SZ
      requires Seen(s, v0, Address(bi - 1, 0), Address(bi - 1, BOTTOM_SZ - 1), Address(bi - 1, BOTTOM_SZ))
      ensures Seen(s, v, Address(bi - 1, 0), b, Address(bi - 1, BOTTOM_SZ)) && b < Address(bi - 1, 0)
    {
      v := v0;
      var j := BOTTOM_SZ - 1;
      while j >= 0
        invariant j < BOTTOM_SZ && Seen(s, v, Address(bi - 1, 0), Address(bi - 1, j), Address(bi - 1, BOTTOM_SZ))
      {
        var x := entries[bi][j];
        HdrPlace(entries, bi - 1, j);
        ghost var p := Address(bi - 1, j);
        if x.Header? {
          SeeHeader(entries, s, own, z, v, Address(bi - 1, 0), p, Address(bi - 1, BOTTOM_SZ));
          if !x.free {
            v := v + [Address(bi - 1, j)];
          }
          j := j - 1;
        } else if x.Nil? {
          SeeOther(entries, s, own, z, v, Address(bi - 1, 0), p, Address(bi - 1, BOTTOM_SZ));
          j := j - 1;
        } else {
          SeeOther(entries, s, own, z, v, Address(bi - 1, 0), p, Address(bi - 1, BOTTOM_SZ));
          j := j - x.k;
        }
      }
      b := Address(bi - 1, j);
    }

    /** GC_apply_to_all_blocks visits every block in use exactly once; v is the order of the visits. */
    method ApplyToAllBlocks(ghost s: Shape, ghost own: Owners, ghost z: Sizes) returns (v: seq<nat>)
      requires Valid() && Agrees(entries, s, own, z)
      ensures NoDup(v) && forall p: nat :: p in v <==> IsUsed(s, p)
    {
      v := [];
      var bi := first;
      ghost var i: nat := 0;
      SeeFirst(entries, s, own, z, asc, desc, first, last, l);
      assert SeenAll(s, v) ==> NoDup(v) && forall p: nat :: p in v <==> IsUsed(s, p);
      while bi != 0
        invariant bi == Elem(l, i) && SeenFrom(s, v, l, i) && i <= |l|
        decreases |l| - i
      {
        hide Chained, Agrees, Address, Seen, SeenAll, SeenFrom;
        SeenStart(entries, asc, desc, first, last, s, v, l, i);
        ghost var b;
        v, b := VisitIndex(bi, v, s, own, z);
        SeeNext(entries, s, own, z, asc, desc, first, last, l, i, v, b);
        bi, i := asc[bi], i + 1;
      }
      SeenStart(entries, asc, desc, first, last, s, v, l, i);
    }

    // ---------- following the allocator ----------

    /** hb_sz and FREE_BLK of the header of h are set. */
    method SetHeader(h: nat, sz: nat, free: bool)
      requires Valid() && !Hdr(entries, h).Nil?
      modifies this`entries
      ensures Valid()
      ensures forall p: nat {:trigger Hdr(entries, p)} :: Hdr(entries, p) == if p == h then Header(sz, free) else Hdr(old(entries), p)
    {
      HdrKnown(entries, h);
      hide Chained, KeyOf, Hdr;
      SetHdr(h, Header(sz, free));
    }

    /** Where the free block f ends, by its header. */
    method EndOf(f: nat, ghost s: Shape, ghost own: Owners, ghost z: Sizes) returns (end: nat)
      requires Agrees(entries, s, own, z) && IsFree(s, f)
      ensures f in s && end == f + s[f].sz && 1 <= s[f].sz && 1 <= f && Tiled(s, own) && Hdr(entries, f) == Header(Bytes(s[f].sz), true)
    {
      FreeSize(entries, s, own, z, f);
      end := f + Hdr(entries, f).sz / HBLKSIZE;
    }

    /** The free block f is cut at r: a header for r is installed, and both sizes are set. */
    method CutFree(f: nat, r: nat, ghost s: Shape, ghost own: Owners, ghost z: Sizes) returns (ghost o: Owners, ghost y: Sizes)
      requires Valid() && Agrees(entries, s, own, z) && IsFree(s, f) && f < r < f + s[f].sz
      modifies this
      ensures Valid() && Agrees(entries, Cut(s, f, r), o, y) && o.Keys == own.Keys && KeepsSizes(s, z, Cut(s, f, r), y, 0)
    {
      ghost var e := entries;
      hide Chained, Agrees, KeyOf, Hdr, Bytes, Cut, CutOwners, Tiled, IsFree, KeepsSizes;
      var end := EndOf(f, s, own, z);
      CutKeeps(e, s, own, z, f, r);
      CutTiled(s, own, f, r);
      InstallHeader(r, 0);
      SetHeader(r, Bytes(end - r), true);
      SetHeader(f, Bytes(r - f), true);
      CutAgrees(e, entries, s, own, z, f, r);
      o, y := CutOwners(s, own, f, r), CutSizes(z, f, r, f + s[f].sz);
    }

    /** The free block b, of n pages, is set up for objects of `bytes` bytes (GC_install_counts, setup_header). */
    method SetUp(b: nat, n: nat, bytes: nat, ghost s: Shape, ghost own: Owners, ghost z: Sizes)
      requires Valid() && Agrees(entries, s, own, z) && IsFree(s, b) && s[b].sz == n && 1 <= n && 1 <= bytes && ToBlocks(bytes) == n
      modifies this
      ensures Valid() && Agrees(entries, s[b := Blk(n, false)], own, z[b := bytes])
    {
      FreeSize(entries, s, own, z, b);
      ghost var e := entries;
      hide Chained, Agrees, KeyOf, Hdr, ToBlocks;
      InstallCounts(b, n);
      SetHeader(b, bytes, false);
      Relabel(e, entries, s, own, z, b, Blk(n, false), bytes);
    }

    /** The part of the free block f before r becomes a block of its own. */
    method CutOffBefore(f: nat, r: nat, ghost s: Shape, ghost own: Owners, ghost z: Sizes) returns (ghost o: Owners, ghost y: Sizes)
      requires Valid() && Agrees(entries, s, own, z) && IsFree(s, f) && f <= r < f + s[f].sz
      modifies this
      ensures Valid() && Agrees(entries, CutBefore(s, f, r), o, y) && o.Keys == own.Keys && KeepsSizes(s, z, CutBefore(s, f, r), y, 0)
    {
      hide Chained, Agrees, Hdr, Cut, KeepsSizes, NewSizes;
      if f < r {
        o, y := CutFree(f, r, s, own, z);
      } else {
        KeepsAll(entries, s, own, z);
        o, y := own, z;
      }
    }

    /** So does the part of the free block r behind its first n pages. */
    method CutOffBehind(r: nat, n: nat, ghost s: Shape, ghost own: Owners, ghost z: Sizes) returns (ghost o: Owners, ghost y: Sizes)
      requires Valid() && Agrees(entries, s, own, z) && IsFree(s, r) && 1 <= n <= s[r].sz
      modifies this
      ensures Valid() && Agrees(entries, CutBehind(s, r, n), o, y) && o.Keys == own.Keys && KeepsSizes(s, z, CutBehind(s, r, n), y, 0)
    {
      hide Chained, Agrees, Hdr, Cut, KeepsSizes, NewSizes, Bytes, Tiled;
      var end := EndOf(r, s, own, z);
      if r + n < end {
        o, y := CutFree(r, r + n, s, own, z);
      } else {
        KeepsAll(entries, s, own, z);
        o, y := own, z;
      }
    }

    /**
     * The index follows an allocation: pages r .. r + n of the free block f go to an object, or objects,
     * of `bytes` bytes.
     */
    method Allocated(f: nat, r: nat, n: nat, bytes: nat, ghost s: Shape, ghost own: Owners, ghost z: Sizes)
      returns (ghost o: Owners, ghost y: Sizes)
      requires Valid() && Agrees(entries, s, own, z) && IsFree(s, f) && f <= r && 1 <= n && r + n <= f + s[f].sz
      requires 1 <= bytes && ToBlocks(bytes) == n
      modifies this
      ensures Valid() && Agrees(entries, Carve(s, f, r, n), o, y) && o.Keys == own.Keys && r in y && y[r] == bytes
      ensures KeepsSizes(s, z, Carve(s, f, r, n), y, 0) && NewSizes(s, Carve(s, f, r, n), y, r, bytes)
    {
      hide Chained, Agrees, Hdr, ToBlocks, Carve, CutBefore, CutBehind, KeepsSizes, NewSizes;
      CarveInSteps(s, f, r, n);
      ghost var t := CutBefore(s, f, r);
      ghost var u := CutBehind(t, r, n);
      ghost var y1, y2;
      o, y1 := CutOffBefore(f, r, s, own, z);
      o, y2 := CutOffBehind(r, n, t, o, y1);
      KeepsThen(s, z, t, y1, 0, u, y2);
      RelabelKeeps(entries, u, o, y2, r, Blk(n, false), bytes);
      y := y2[r := bytes];
      KeepsThen(s, z, u, y2, 0, Carve(s, f, r, n), y);
      SetUp(r, n, bytes, u, o, y2);
      CarveNew(s, f, r, n, y, bytes);
    }

    /** What the headers of two adjacent free blocks say of their common size. */
    method SizeTogether(b: nat, following: nat, ghost s: Shape, ghost own: Owners, ghost z: Sizes) returns (size: nat)
      requires Agrees(entries, s, own, z) && IsFree(s, b) && following == b + s[b].sz && IsFree(s, following)
      ensures 1 <= s[b].sz && Tiled(s, own) && size == Bytes(s[b].sz + s[following].sz)
      ensures Hdr(entries, b).Header? && Hdr(entries, following).Header?
    {
      FreeSize(entries, s, own, z, b);
      FreeSize(entries, s, own, z, following);
      BytesSum(s[b].sz, s[following].sz);
      size := Hdr(entries, b).sz + Hdr(entries, following).sz;
    }

    /** The free block b absorbs the free block after it: in GC_freehblk and in GC_merge_unmapped. */
    method Absorb(b: nat, following: nat, ghost s: Shape, ghost own: Owners, ghost z: Sizes) returns (ghost o: Owners, ghost y: Sizes)
      requires Valid() && Agrees(entries, s, own, z) && IsFree(s, b) && following == b + s[b].sz && IsFree(s, following)
      modifies this
      ensures 1 <= s[b].sz
      ensures Valid() && Agrees(entries, AbsorbNext(s, b), o, y) && o.Keys == own.Keys && KeepsSizes(s, z, AbsorbNext(s, b), y, 0)
    {
      ghost var e := entries;
      hide Chained, Agrees, KeyOf, Hdr, Bytes, Tiled, KeepsSizes;
      var size := SizeTogether(b, following, s, own, z);
      AbsorbNextTiled(s, own, b);
      SetHeader(b, size, true);
      RemoveHeader(following);
      AbsorbAgrees(e, entries, s, own, z, b);
      AbsorbKeeps(e, s, own, z, b);
      o, y := AbsorbOwners(s, own, b), z[b := Bytes(s[b].sz + s[following].sz)];
    }

    /** One more merge since the partition was s0. */
    method AbsorbToo(b: nat, following: nat, ghost s0: Shape, ghost z0: Sizes, ghost s: Shape, ghost own: Owners, ghost z: Sizes)
      returns (ghost o: Owners, ghost y: Sizes)
      requires Valid() && Agrees(entries, s, own, z) && IsFree(s, b) && following == b + s[b].sz && IsFree(s, following)
      requires KeepsSizes(s0, z0, s, z, 0)
      modifies this
      ensures 1 <= s[b].sz
      ensures Valid() && Agrees(entries, AbsorbNext(s, b), o, y) && o.Keys == own.Keys && KeepsSizes(s0, z0, AbsorbNext(s, b), y, 0)
    {
      hide Chained, Agrees, Hdr, AbsorbNext, KeepsSizes;
      o, y := Absorb(b, following, s, own, z);
      KeepsThen(s0, z0, s, z, 0, AbsorbNext(s, b), y);
    }

    /** GC_free_block_ending_at: the free block that ends just before block h, or 0. */
    method FreeBlockEndingAt(h: nat, ghost s: Shape, ghost own: Owners, ghost z: Sizes) returns (p: nat)
      requires Valid() && Agrees(entries, s, own, z) && h in s && 1 <= h
      ensures FreeBefore(s, h, p)
    {
      p := h - 1;
      var x := Hdr(entries, p);
      while x.Forward?
        invariant p <= h - 1 && x == Hdr(entries, p)
        invariant x.Forward? || p != h - 1 ==> SameUse(s, own, h - 1, p) && !x.Nil?
        decreases p
      {
        ForwardStep(entries, s, own, z, p);
        p := p - x.k;
        x := Hdr(entries, p);
      }
      if x.Header? {
        EndsUsed(entries, s, own, z, h, p);
        return if x.free then p else 0;
      }
      ghost var p0 := p;
      NilAt(entries, s, own, z, h - 1);
      p := PrevBlock(h - 1, s, own, z);
      EndsFree(entries, s, own, z, h, p);
      if p != 0 {
        x := Hdr(entries, p);
        if !(x.Header? && x.free && p + x.sz / HBLKSIZE == h) { p := 0; }
      }
    }

    /** In GC_freehblk: block b gives up its counts and is marked free. */
    method FreeInPlace(b: nat, ghost s: Shape, ghost own: Owners, ghost z: Sizes) returns (n: nat, ghost y: Sizes)
      requires Valid() && Agrees(entries, s, own, z) && IsUsed(s, b)
      modifies this
      ensures 1 <= b && n == s[b].sz && 1 <= n && Tiled(s, own)
      ensures Valid() && Agrees(entries, s[b := Blk(n, true)], own, y) && KeepsSizes(s, z, s[b := Blk(n, true)], y, b)
    {
      RelabelKeeps(entries, s, own, z, b, Blk(s[b].sz, true), Bytes(s[b].sz));
      UsedSize(entries, s, own, z, b);
      n := ToBlocks(Hdr(entries, b).sz);
      ghost var e := entries;
      BytesToBlocks(n);
      hide Chained, Agrees, KeyOf, Hdr, ToBlocks, Bytes, Tiled, KeepsSizes;
      RemoveCounts(b, n);
      SetHeader(b, Bytes(n), true);
      Relabel(e, entries, s, own, z, b, Blk(n, true), Bytes(n));
      y := z[b := Bytes(n)];
    }

    /** The end of GC_freehblk: the free block b is merged with its free neighbours. */
    method MergeNeighbours(b: nat, ghost t: Shape, ghost own: Owners, ghost z: Sizes) returns (p: nat, ghost o: Owners, ghost y: Sizes)
      requires Valid() && Agrees(entries, t, own, z) && IsFree(t, b)
      modifies this
      ensures FreeBefore(t, b, p) && 1 <= b && (p != 0 ==> IsFree(t, p) && p + t[p].sz == b)
      ensures Valid() && o.Keys == own.Keys
      ensures Agrees(entries, Merged(t, b, p), o, y) && KeepsSizes(t, z, Merged(t, b, p), y, 0)
    {
      FreeSize(entries, t, own, z, b);
      KeepsAll(entries, t, own, z);
      o, y := own, z;
      hide Chained, Agrees, KeyOf, Hdr, ToBlocks, Bytes, Tiled, FreeBefore, KeepsSizes, NewSizes;
      p := FreeBlockEndingAt(b, t, o, y);
      PlaceOfBefore(t, b, p);
      var following := b + Hdr(entries, b).sz / HBLKSIZE;
      HeaderAt(entries, t, o, y, following);
      ghost var u := t;
      if Hdr(entries, following).Header? && Hdr(entries, following).free {
        o, y := AbsorbToo(b, following, t, z, t, o, y);
        u := AbsorbNext(t, b);
      }
      MergedLeftOk(t, b, p);
      if p != 0 {
        o, y := AbsorbToo(p, b, t, z, u, o, y);
      }
    }

    /** The index follows GC_freehblk: block b is freed and merged with its free neighbours. */
    method Freed(b: nat, ghost s: Shape, ghost own: Owners, ghost z: Sizes) returns (p: nat, ghost o: Owners, ghost y: Sizes)
      requires Valid() && Agrees(entries, s, own, z) && IsUsed(s, b)
      modifies this
      ensures FreeBefore(s, b, p) && 1 <= s[b].sz && (p != 0 ==> p < b && 1 <= s[p].sz)
      ensures Valid() && Agrees(entries, Release(s, b, p), o, y) && o.Keys == own.Keys && KeepsSizes(s, z, Release(s, b, p), y, b)
    {
      hide Chained, Agrees, KeyOf, Hdr, ToBlocks, Release, ReleaseRight, Bytes, Tiled, FreeBefore, Merged, KeepsSizes;
      var n;
      ghost var w;
      n, w := FreeInPlace(b, s, own, z);
      ghost var t := s[b := Blk(n, true)];
      p, o, y := MergeNeighbours(b, t, own, w);
      KeepsThen(s, z, t, w, b, Merged(t, b, p), y);
      BeforeFlag(s, own, b, p);
      PlaceOfBefore(s, b, p);
      MergedIs(s, b, p);
    }

    /** A new section of n pages gets one header, without forwarding counts, and GC_freehblk marks it free. */
    method NewHeader(b: nat, n: nat, ghost s: Shape, ghost own: Owners, ghost z: Sizes)
      requires Valid() && Agrees(entries, s, own, z) && 1 <= b && 1 <= n && own.Keys !! Range(b, n)
      modifies this
      ensures Valid() && Agrees(entries, s[b := Blk(n, true)], WithRange(own, b, n), z[b := Bytes(n)])
      ensures KeepsSizes(s, z, s[b := Blk(n, true)], z[b := Bytes(n)], 0)
    {
      ghost var e := entries;
      NewPagesNil(e, s, own, z, b, n);
      hide Chained, Agrees, KeyOf, Hdr, Bytes, Range, WithRange, KeepsSizes;
      InstallHeader(b, 0);
      SetHeader(b, Bytes(n), false);
      RemoveCounts(b, n);
      SetHeader(b, Bytes(n), true);
      AddedAgrees(e, entries, s, own, z, b, n);
      AddedKeeps(e, s, own, z, b, n);
    }

    /** The header steps of GC_add_to_heap: the new section is freed. */
    method AddSection(b: nat, n: nat, ghost s: Shape, ghost own: Owners, ghost z: Sizes) returns (p: nat, ghost o: Owners, ghost y: Sizes)
      requires Valid() && Agrees(entries, s, own, z) && 1 <= b && 1 <= n && own.Keys !! Range(b, n)
      modifies this
      ensures b !in s && FreeBefore(s[b := Blk(n, false)], b, p) && (p != 0 ==> p < b && p in s && 1 <= s[p].sz)
      ensures Valid() && Agrees(entries, Release(s[b := Blk(n, false)], b, p), o, y) && o.Keys == own.Keys + Range(b, n)
      ensures KeepsSizes(s, z, Release(s[b := Blk(n, false)], b, p), y, 0)
    {
      ghost var u := s[b := Blk(n, false)];
      ghost var t := s[b := Blk(n, true)];
      AgreesTiled(entries, s, own, z);
      SectionTiles(s, own, b, n, false);
      assert t == u[b := Blk(n, true)];
      hide Chained, Agrees, Release, ReleaseRight, Bytes, Tiled, FreeBefore, Merged, Range, WithRange, KeepsSizes;
      NewHeader(b, n, s, own, z);
      p, o, y := MergeNeighbours(b, t, WithRange(own, b, n), z[b := Bytes(n)]);
      KeepsThen(s, z, t, z[b := Bytes(n)], 0, Merged(t, b, p), y);
      BeforeFlag(u, WithRange(own, b, n), b, p);
      PlaceOfBefore(u, b, p);
      MergedIs(u, b, p);
    }

    /** The header steps for a black-listed free block that is given up: every page becomes a used block. */
    method Dropped(f: nat, ghost s: Shape, ghost own: Owners, ghost z: Sizes) returns (ghost o: Owners, ghost y: Sizes)
      requires Valid() && Agrees(entries, s, own, z) && IsFree(s, f)
      modifies this
      ensures Valid() && Agrees(entries, Shatter(s, f), o, y) && o.Keys == own.Keys
      ensures KeepsSizes(s, z, Shatter(s, f), y, 0) && NewSizes(s, Shatter(s, f), y, 0, 0)
    {
      ghost var e := entries;
      ShatterKeeps(e, s, own, z, f);
      FreeSize(e, s, own, z, f);
      ShatterTiled(s, own, f);
      var limit := f + Hdr(entries, f).sz / HBLKSIZE;
      assert limit == f + s[f].sz;
      hide Chained, Agrees, KeyOf, Hdr, ToBlocks, Bytes, Tiled, Shatter, ShatterOwners, ShatterSizes, KeepsSizes, NewSizes;
      var h := f;
      while h < limit
        invariant f <= h <= limit && Valid()
        invariant forall q: nat {:trigger Hdr(entries, q)} :: Hdr(entries, q) == if f <= q < h then Header(Bytes(1), false) else Hdr(e, q)
      {
        if h != f { InstallHeader(h, 0); }
        SetHeader(h, Bytes(1), false);
        h := h + 1;
      }
      ShatterAgrees(e, entries, s, own, z, f);
      o, y := ShatterOwners(s, own, f), ShatterSizes(s, z, f);
    }

    /** Following forwarding counts from a block of an object ends exactly at its first block. */
    method FirstBlock(h: nat, ghost s: Shape, ghost own: Owners, ghost z: Sizes) returns (b: nat)
      requires Agrees(entries, s, own, z) && !Hdr(entries, h).Nil?
      ensures h in own && b == own[h] && b in s && Inside(s, b, h) && Hdr(entries, b).Header?
      ensures b != h ==> IsUsed(s, b)
    {
      b := h;
      NotNil(entries, s, own, z, h);
      while Hdr(entries, b).Forward?
        invariant !Hdr(entries, b).Nil? && b <= h && h in own && b in own && own[b] == own[h] <= b
        invariant b != h || Hdr(entries, h).Forward? ==> IsUsed(s, own[h])
        decreases b
      {
        ForwardAt(entries, s, own, z, b);
        ForwardStep(entries, s, own, z, b);
        b := b - Hdr(entries, b).k;
      }
      HeaderAt(entries, s, own, z, b);
      HeaderOwns(s, own, b, h) by { AgreesTiled(entries, s, own, z); }
    }

    /** GC_base: the start of the object that contains address p, or 0 if no object does. */
    method Base(p: nat, ghost s: Shape, ghost own: Owners, ghost z: Sizes) returns (r: nat, ghost b: nat, ghost i: nat)
      requires Agrees(entries, s, own, z) && WordSizes(s, z)
      ensures r == 0 ==> forall c: nat, j: nat :: !InSlot(s, z, c, j, p)
      ensures r != 0 ==> InSlot(s, z, b, i, p) && r == SlotStart(z[b], b, i)
    {
      b, i := 0, 0;
      AgreesTiled(entries, s, own, z);
      var h := PageOf(p);
      if Hdr(entries, h).Nil? {
        NilPage(entries, s, own, z, p);
        return 0, 0, 0;
      }
      var at := FirstBlock(h, s, own, z);
      HeaderAt(entries, s, own, z, at);
      b := at;
      var x := Hdr(entries, at);
      if x.free {
        FreePage(s, own, z, p);
        return 0, 0, 0;
      }
      UsedSize(entries, s, own, z, at);
      hide Agrees, Tiled, SizesOk, WordSizes, Candidate, SticksOut, SlotStart;
      if at != h {
        LaterPage(s, own, z, at, p);
        if p >= at * HBLKSIZE + x.sz { return 0, at, 0; }
        FirstPageNotZero(at);
        return at * HBLKSIZE, at, 0;
      }
      i := FirstPage(s, own, z, at, p);
      var start := Candidate(p, x.sz);
      if SticksOut(start, x.sz, at) { return 0, at, i; }
      FirstPageNotZero(at);
      StartPositive(x.sz, at, i);
      return start, at, i;
    }
  }
}
