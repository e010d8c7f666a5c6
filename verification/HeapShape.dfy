/**
The partition of the heap into blocks (libs/gc/allchblk.c:28-32), with sizes in units of HBLKSIZE:
which blocks there are, how large they are, and which of them are free.
 */
module HeapShape {

  /** What the header of a block says about it: hb_sz (rounded up to blocks) and FREE_BLK. */
  datatype Blk = Blk(sz: nat, free: bool)

  type Shape = map<nat, Blk>

  /** The block each page of the heap belongs to. */
  type Owners = map<nat, nat>

  predicate Inside(s: Shape, b: nat, p: nat) {
    b in s && b <= p < b + s[b].sz
  }

  /** The blocks tile the heap: every page lies in exactly one block, and blocks lie in the heap. */
  ghost predicate Tiled(s: Shape, own: Owners) {
    && (forall b: nat :: b in s ==> 1 <= b && 1 <= s[b].sz)
    && (forall b: nat, p: nat :: Inside(s, b, p) ==> p in own && own[p] == b)
    && (forall p: nat :: p in own ==> Inside(s, own[p], p))
  }

  predicate IsFree(s: Shape, b: nat) { b in s && s[b].free }

  predicate IsUsed(s: Shape, b: nat) { b in s && !s[b].free }

  /** No two free blocks are adjacent. */
  ghost predicate Coalesced(s: Shape) {
    forall b: nat :: IsFree(s, b) ==> !IsFree(s, b + s[b].sz)
  }

  /** The same used blocks, of the same sizes. */
  ghost predicate SameUsed(s: Shape, t: Shape) {
    forall b: nat :: (IsUsed(s, b) <==> IsUsed(t, b)) && (IsUsed(s, b) ==> s[b] == t[b])
  }

  /** Every block in use before is in use afterwards. */
  ghost predicate KeepsUsed(s: Shape, t: Shape) {
    forall b: nat :: IsUsed(s, b) ==> b in t && t[b] == s[b]
  }

  // ---------- a coalesced partition is unique ----------

  lemma UsedInBoth(s: Shape, os: Owners, t: Shape, b: nat, c: nat, p: nat)
    requires Tiled(s, os) && SameUsed(s, t) && Inside(s, b, p) && Inside(t, c, p) && IsUsed(t, c)
    ensures b == c && IsUsed(s, b)
  {
    assert IsUsed(s, c) && Inside(s, c, p);
  }

  /** A page of a free block belongs to a free block in every partition with the same used blocks. */
  lemma FreePageFree(s: Shape, os: Owners, t: Shape, ot: Owners, b: nat, p: nat)
    requires Tiled(s, os) && Tiled(t, ot) && os.Keys == ot.Keys && SameUsed(s, t) && IsFree(s, b) && Inside(s, b, p)
    ensures p in ot && IsFree(t, ot[p]) && Inside(t, ot[p], p)
  {
    assert p in os.Keys;
    if IsUsed(t, ot[p]) { UsedInBoth(s, os, t, b, ot[p], p); }
  }

  /** If a free block of t starts before a free block of s, then a free block of s ends there. */
  lemma FreeBlockBefore(s: Shape, os: Owners, t: Shape, ot: Owners, b: nat, c: nat)
    requires Tiled(s, os) && Tiled(t, ot) && os.Keys == ot.Keys && SameUsed(s, t)
    requires IsFree(s, b) && IsFree(t, c) && Inside(t, c, b) && c < b
    ensures exists d: nat :: IsFree(s, d) && d + s[d].sz == b
  {
    var p: nat := b - 1;
    assert Inside(t, c, p);
    FreePageFree(t, ot, s, os, c, p);
    var d := os[p];
    assert IsFree(s, d) && d + s[d].sz == b by {
      if b < d + s[d].sz { assert Inside(s, d, b) && Inside(s, b, b); }
    }
  }

  lemma FreeBlockAfter(s: Shape, os: Owners, t: Shape, ot: Owners, b: nat)
    requires Tiled(s, os) && Tiled(t, ot) && os.Keys == ot.Keys && SameUsed(s, t)
    requires IsFree(s, b) && IsFree(t, b) && s[b].sz < t[b].sz
    ensures IsFree(s, b + s[b].sz)
  {
    var p := b + s[b].sz;
    assert Inside(t, b, p);
    FreePageFree(t, ot, s, os, b, p);
    var q: nat := p - 1;
    assert Inside(s, b, q) && os[q] == b;
    assert os[p] == p by {
      if os[p] < p { assert Inside(s, os[p], q); }
    }
  }

  lemma SameBlock(s: Shape, os: Owners, t: Shape, ot: Owners, b: nat)
    requires Tiled(s, os) && Tiled(t, ot) && os.Keys == ot.Keys && Coalesced(s) && Coalesced(t) && SameUsed(s, t)
    requires b in s
    ensures b in t && t[b] == s[b]
  {
    if IsFree(s, b) {
      assert Inside(s, b, b);
      FreePageFree(s, os, t, ot, b, b);
      var c := ot[b];
      if c < b { FreeBlockBefore(s, os, t, ot, b, c); }
      if c == b && s[b].sz < t[b].sz { FreeBlockAfter(s, os, t, ot, b); }
      if c == b && t[b].sz < s[b].sz { FreeBlockAfter(t, ot, s, os, b); }
    } else {
      assert IsUsed(s, b);
    }
  }

  /** A coalesced partition is determined by the heap and the used blocks. */
  lemma ShapeUnique(s: Shape, os: Owners, t: Shape, ot: Owners)
    requires Tiled(s, os) && Tiled(t, ot) && os.Keys == ot.Keys && Coalesced(s) && Coalesced(t) && SameUsed(s, t)
    ensures s == t
  {
    forall b: nat | b in s ensures b in t && t[b] == s[b] { SameBlock(s, os, t, ot, b); }
    forall b: nat | b in t ensures b in s && t[b] == s[b] { SameBlock(t, ot, s, os, b); }
    assert s.Keys == t.Keys;
  }

  // ---------- taking blocks from free ones ----------

  /** The free block f is cut: r gets n blocks and is in use, what lies before and after stays free. */
  function Carve(s: Shape, f: nat, r: nat, n: nat): Shape
    requires f in s && f <= r && r + n <= f + s[f].sz
  {
    var end := f + s[f].sz;
    var t := s[f := Blk(r - f, true)][r := Blk(n, false)];
    if r + n < end then t[r + n := Blk(end - (r + n), true)] else t
  }

  ghost function CarveOwners(s: Shape, own: Owners, f: nat, r: nat, n: nat): Owners
    requires f in s
  {
    map p: nat | p in own :: if f <= p < f + s[f].sz then (if p < r then f else if p < r + n then r else r + n) else own[p]
  }

  lemma CarveTiled(s: Shape, own: Owners, f: nat, r: nat, n: nat)
    requires Tiled(s, own) && IsFree(s, f) && f <= r && 1 <= n && r + n <= f + s[f].sz
    ensures Tiled(Carve(s, f, r, n), CarveOwners(s, own, f, r, n))
    ensures CarveOwners(s, own, f, r, n).Keys == own.Keys
  {
    var t, o := Carve(s, f, r, n), CarveOwners(s, own, f, r, n);
    NoneWithin(s, own, f);
    forall b: nat, p: nat | Inside(t, b, p) ensures p in o && o[p] == b {
      if b == f || b == r || (b == r + n && b < f + s[f].sz) { assert Inside(s, f, p); } else { assert Inside(s, b, p); }
    }
    forall p: nat | p in o ensures Inside(t, o[p], p) {
      if f <= p < f + s[f].sz { assert Inside(s, f, p); } else { assert own[p] != f; }
    }
  }

  /** No other block starts within a block. */
  lemma NoneWithin(s: Shape, own: Owners, f: nat)
    requires Tiled(s, own) && f in s
    ensures forall b: nat :: b in s && f <= b < f + s[f].sz ==> b == f
    ensures forall b: nat, p: nat :: Inside(s, b, p) && f <= p < f + s[f].sz ==> b == f
  {
    forall b: nat | b in s && f <= b < f + s[f].sz ensures b == f {
      assert Inside(s, b, b) && Inside(s, f, b);
    }
    forall b: nat, p: nat | Inside(s, b, p) && f <= p < f + s[f].sz ensures b == f {
      assert Inside(s, f, p);
    }
  }

  lemma CarveCoalesced(s: Shape, own: Owners, f: nat, r: nat, n: nat)
    requires Tiled(s, own) && Coalesced(s) && IsFree(s, f) && f <= r && 1 <= n && r + n <= f + s[f].sz
    ensures Coalesced(Carve(s, f, r, n)) && KeepsUsed(s, Carve(s, f, r, n))
  {
    var t := Carve(s, f, r, n);
    var end := f + s[f].sz;
    NoneWithin(s, own, f);
    assert IsFree(s, f) && !IsFree(s, end);
    forall b: nat | IsFree(t, b) ensures !IsFree(t, b + t[b].sz) {
      if b != f && !(b == r + n && b < end) {
        var next := b + s[b].sz;
        assert IsFree(s, b) && !IsFree(s, next);
        assert !(f < next < end) by {
          var last: nat := next - 1;
          if f <= last < end { assert Inside(s, b, last); }
        }
      }
    }
  }

  // ---------- giving blocks back ----------

  /** b grows to the right by the block that follows it. */
  function AbsorbNext(s: Shape, b: nat): Shape
    requires b in s && b + s[b].sz in s && 1 <= s[b].sz
  {
    var next := b + s[b].sz;
    (s - {next})[b := Blk(s[b].sz + s[next].sz, true)]
  }

  ghost function AbsorbOwners(s: Shape, own: Owners, b: nat): Owners
    requires b in s
  {
    map p: nat | p in own :: if own[p] == b + s[b].sz then b else own[p]
  }

  lemma AbsorbNextTiled(s: Shape, own: Owners, b: nat)
    requires Tiled(s, own) && b in s && b + s[b].sz in s
    ensures Tiled(AbsorbNext(s, b), AbsorbOwners(s, own, b)) && AbsorbOwners(s, own, b).Keys == own.Keys
  {
    var next := b + s[b].sz;
    var t, o := AbsorbNext(s, b), AbsorbOwners(s, own, b);
    forall q: nat, p: nat | Inside(t, q, p) ensures p in o && o[p] == q {
      if q == b { assert Inside(s, b, p) || Inside(s, next, p); } else { assert Inside(s, q, p); }
    }
  }

  /** p is the free block that ends where b starts, or 0 if there is none. */
  ghost predicate FreeBefore(s: Shape, b: nat, p: nat) {
    if p == 0 then forall q: nat :: IsFree(s, q) ==> q + s[q].sz != b else IsFree(s, p) && p + s[p].sz == b
  }

  /** b is freed, and first merged with the free block after it. */
  function ReleaseRight(s: Shape, b: nat): Shape
    requires b in s && 1 <= s[b].sz
  {
    if IsFree(s, b + s[b].sz) then AbsorbNext(s, b) else s[b := Blk(s[b].sz, true)]
  }

  /** The used block b is freed and merged with free neighbours; p is the free block ending at b, or 0. */
  function Release(s: Shape, b: nat, p: nat): Shape
    requires b in s && 1 <= s[b].sz
    requires p != 0 ==> p in s && p < b && p + s[p].sz == b && 1 <= s[p].sz
  {
    if p != 0 then AbsorbNext(ReleaseRight(s, b), p) else ReleaseRight(s, b)
  }

  lemma ReleaseRightOk(s: Shape, own: Owners, b: nat) returns (o: Owners)
    requires Tiled(s, own) && IsUsed(s, b)
    ensures Tiled(ReleaseRight(s, b), o) && o.Keys == own.Keys
  {
    if IsFree(s, b + s[b].sz) {
      AbsorbNextTiled(s, own, b);
      o := AbsorbOwners(s, own, b);
    } else {
      o := own;
      var t := ReleaseRight(s, b);
      assert forall q: nat, p: nat :: Inside(t, q, p) <==> Inside(s, q, p);
    }
  }

  /** GC_freehblk keeps the heap tiled, coalesced, and all other used blocks. */
  lemma ReleaseOk(s: Shape, own: Owners, b: nat, p: nat) returns (o: Owners)
    requires Tiled(s, own) && Coalesced(s) && IsUsed(s, b) && FreeBefore(s, b, p)
    ensures Tiled(Release(s, b, p), o) && o.Keys == own.Keys
    ensures Coalesced(Release(s, b, p))
    ensures forall q: nat :: IsUsed(Release(s, b, p), q) <==> IsUsed(s, q) && q != b
    ensures forall q: nat :: IsUsed(s, q) && q != b ==> Release(s, b, p)[q] == s[q]
  {
    var t := ReleaseRight(s, b);
    o := ReleaseRightOk(s, own, b);
    if p != 0 {
      AbsorbNextTiled(t, o, p);
      o := AbsorbOwners(t, o, p);
    }
    ReleaseCoalesced(s, own, b, p);
  }

  lemma ReleaseCoalesced(s: Shape, own: Owners, b: nat, p: nat)
    requires Tiled(s, own) && Coalesced(s) && IsUsed(s, b) && FreeBefore(s, b, p)
    ensures Coalesced(Release(s, b, p))
  {
    var u := Release(s, b, p);
    var start := if p != 0 then p else b;
    var next := b + s[b].sz;
    var end := if IsFree(s, next) then next + s[next].sz else next;
    assert p != 0 ==> IsFree(s, p);
    assert start in u && start + u[start].sz == end;
    assert !IsFree(s, end);
    forall q: nat | IsFree(u, q) ensures !IsFree(u, q + u[q].sz) {
      if q == start {
        assert !IsFree(u, end);
      } else {
        assert IsFree(s, q) && u[q] == s[q] && !IsFree(s, q + s[q].sz);
        assert q + s[q].sz != start;
      }
    }
  }

  /** Freeing a block that was carved out of the heap restores the partition it was carved from. */
  lemma CarveThenRelease(s: Shape, own: Owners, f: nat, r: nat, n: nat, p: nat)
    requires Tiled(s, own) && Coalesced(s) && IsFree(s, f) && f <= r && 1 <= n && r + n <= f + s[f].sz
    requires FreeBefore(Carve(s, f, r, n), r, p)
    ensures Release(Carve(s, f, r, n), r, p) == s
  {
    var t := Carve(s, f, r, n);
    CarveTiled(s, own, f, r, n);
    CarveCoalesced(s, own, f, r, n);
    var o := ReleaseOk(t, CarveOwners(s, own, f, r, n), r, p);
    NoneWithin(s, own, f);
    assert forall b: nat :: IsUsed(t, b) && b != r <==> IsUsed(s, b);
    ShapeUnique(Release(t, r, p), o, s, own);
  }

  // ---------- dropping black-listed blocks ----------

  /** The free block f is given up as used blocks of one page each. */
  function Shatter(s: Shape, f: nat): Shape
    requires f in s
  {
    s + (map p: nat | f <= p < f + s[f].sz && Inside(s, f, p) :: Blk(1, false))
  }

  ghost function ShatterOwners(s: Shape, own: Owners, f: nat): Owners
    requires f in s
  {
    map p: nat | p in own :: if f <= p < f + s[f].sz then p else own[p]
  }

  /** t is s with some free blocks given up: no used block changes, no free block is new. */
  ghost predicate DroppedFrom(s: Shape, t: Shape) {
    && KeepsUsed(s, t)
    && (forall b: nat :: IsFree(t, b) ==> b in s && s[b] == t[b])
    && (forall b: nat :: IsUsed(t, b) && !IsUsed(s, b) ==> t[b].sz == 1 && exists f: nat :: IsFree(s, f) && Inside(s, f, b))
  }

  lemma ShatterTiled(s: Shape, own: Owners, f: nat)
    requires Tiled(s, own) && IsFree(s, f)
    ensures Tiled(Shatter(s, f), ShatterOwners(s, own, f)) && ShatterOwners(s, own, f).Keys == own.Keys
    ensures forall b: nat :: IsFree(Shatter(s, f), b) <==> IsFree(s, b) && b != f
  {
    var t, o := Shatter(s, f), ShatterOwners(s, own, f);
    NoneWithin(s, own, f);
    forall b: nat ensures IsFree(t, b) <==> IsFree(s, b) && b != f {
    }
    forall b: nat, p: nat | Inside(t, b, p) ensures p in o && o[p] == b {
      if f <= b < f + s[f].sz { assert Inside(s, f, p); } else { assert Inside(s, b, p); }
    }
    forall p: nat | p in o ensures Inside(t, o[p], p) {
      if !(f <= p < f + s[f].sz) { assert Inside(s, own[p], p); }
    }
  }

  lemma ShatterOk(s: Shape, own: Owners, f: nat)
    requires Tiled(s, own) && Coalesced(s) && IsFree(s, f)
    ensures Tiled(Shatter(s, f), ShatterOwners(s, own, f)) && ShatterOwners(s, own, f).Keys == own.Keys
    ensures Coalesced(Shatter(s, f)) && DroppedFrom(s, Shatter(s, f))
    ensures forall b: nat :: IsFree(Shatter(s, f), b) <==> IsFree(s, b) && b != f
  {
    var t := Shatter(s, f);
    ShatterTiled(s, own, f);
    NoneWithin(s, own, f);
    forall b: nat | IsUsed(t, b) && !IsUsed(s, b) ensures t[b].sz == 1 && exists f: nat :: IsFree(s, f) && Inside(s, f, b) {
      assert Inside(s, f, b);
    }
    forall b: nat | IsFree(t, b) ensures !IsFree(t, b + t[b].sz) {
      assert IsFree(s, b);
    }
  }

  /** The free blocks ds are given up in turn. */
  ghost predicate Drops(s: Shape, ds: seq<nat>, t: Shape)
    decreases |ds|
  {
    if ds == [] then t == s else IsFree(s, ds[0]) && Drops(Shatter(s, ds[0]), ds[1..], t)
  }

  lemma {:induction false} DropsJoin(s: Shape, ds: seq<nat>, t: Shape, es: seq<nat>, u: Shape)
    requires Drops(s, ds, t) && Drops(t, es, u)
    ensures Drops(s, ds + es, u)
    decreases |ds|
  {
    hide Shatter;
    if ds == [] {
      assert ds + es == es;
    } else {
      DropsJoin(Shatter(s, ds[0]), ds[1..], t, es, u);
      assert (ds + es)[0] == ds[0] && (ds + es)[1..] == ds[1..] + es;
    }
  }

  lemma DropsOne(s: Shape, ds: seq<nat>, t: Shape, h: nat)
    requires Drops(s, ds, t) && IsFree(t, h)
    ensures Drops(s, ds + [h], Shatter(t, h))
  {
    assert [h][1..] == [];
    assert Drops(Shatter(t, h), [h][1..], Shatter(t, h));
    DropsJoin(s, ds, t, [h], Shatter(t, h));
  }

  /** b and the block behind it are free. */
  predicate CanAbsorb(s: Shape, b: nat) {
    IsFree(s, b) && 1 <= s[b].sz && IsFree(s, b + s[b].sz)
  }

  /** The free blocks bs absorb the free blocks after them, in turn. */
  ghost predicate Merges(s: Shape, bs: seq<nat>, t: Shape)
    decreases |bs|
  {
    if bs == [] then t == s
    else CanAbsorb(s, bs[0]) && Merges(AbsorbNext(s, bs[0]), bs[1..], t)
  }

  lemma {:induction false} MergesOne(s: Shape, bs: seq<nat>, t: Shape, h: nat)
    requires Merges(s, bs, t) && CanAbsorb(t, h)
    ensures Merges(s, bs + [h], AbsorbNext(t, h))
    decreases |bs|
  {
    if bs == [] {
      assert bs + [h] == [h] && [h][1..] == [];
    } else {
      MergesOne(AbsorbNext(s, bs[0]), bs[1..], t, h);
      assert (bs + [h])[0] == bs[0] && (bs + [h])[1..] == bs[1..] + [h];
    }
  }

  /** There is only one free block that ends at b. */
  lemma FreeBeforeUnique(s: Shape, own: Owners, b: nat, p: nat, q: nat)
    requires Tiled(s, own) && FreeBefore(s, b, p) && FreeBefore(s, b, q)
    ensures p == q
  {
    if p != 0 && q != 0 {
      var last: nat := b - 1;
      assert Inside(s, p, last) && Inside(s, q, last);
    }
  }

  lemma DroppedFromTransitive(s: Shape, t: Shape, u: Shape)
    requires DroppedFrom(s, t) && DroppedFrom(t, u)
    ensures DroppedFrom(s, u)
  {
    forall b: nat | IsUsed(u, b) && !IsUsed(s, b) ensures u[b].sz == 1 && exists f: nat :: IsFree(s, f) && Inside(s, f, b) {
      if !IsUsed(t, b) {
        var f: nat :| IsFree(t, f) && Inside(t, f, b);
        assert IsFree(s, f) && Inside(s, f, b);
      }
    }
  }

  // ---------- new sections ----------

  predicate Between(b: nat, n: nat, p: nat) { b <= p < b + n }

  ghost function Range(b: nat, n: nat): set<nat> {
    set p: nat | b <= p < b + n && Between(b, n, p)
  }

  ghost function WithRange(own: Owners, b: nat, n: nat): Owners {
    map p: nat | p in own.Keys + Range(b, n) :: if p in Range(b, n) then b else own[p]
  }

  lemma SectionTiles(s: Shape, own: Owners, b: nat, n: nat, free: bool)
    requires Tiled(s, own) && 1 <= b && 1 <= n && own.Keys !! Range(b, n)
    ensures b !in s && Tiled(s[b := Blk(n, free)], WithRange(own, b, n))
    ensures WithRange(own, b, n).Keys == own.Keys + Range(b, n)
  {
    var t, o := s[b := Blk(n, free)], WithRange(own, b, n);
    if b in s { assert Inside(s, b, b) && Between(b, n, b); }
    forall c: nat, p: nat | Inside(t, c, p) ensures p in o && o[p] == c {
      if c == b { assert Between(b, n, p); } else { assert Inside(s, c, p); }
    }
    forall p: nat | p in o ensures Inside(t, o[p], p) {
      if p in Range(b, n) { assert Between(b, n, p); } else { assert Inside(s, own[p], p); }
    }
  }

  /** A new section is one more used block. */
  lemma SectionTiled(s: Shape, own: Owners, b: nat, n: nat)
    requires Tiled(s, own) && Coalesced(s) && 1 <= b && 1 <= n && own.Keys !! Range(b, n)
    ensures var t := s[b := Blk(n, false)];
      b !in s && Tiled(t, WithRange(own, b, n)) && Coalesced(t)
  {
    var t := s[b := Blk(n, false)];
    SectionTiles(s, own, b, n, false);
    forall c: nat | IsFree(t, c) ensures !IsFree(t, c + t[c].sz) {
      assert IsFree(s, c) && t[c] == s[c] && !IsFree(s, c + s[c].sz);
    }
  }

  /** Which block owns a page follows from the partition. */
  lemma OwnersUnique(s: Shape, own: Owners, o: Owners)
    requires Tiled(s, own) && Tiled(s, o)
    ensures own == o
  {
    forall p: nat ensures p in own <==> p in o {
      if p in own { assert Inside(s, own[p], p); }
      if p in o { assert Inside(s, o[p], p); }
    }
    forall p: nat | p in own ensures own[p] == o[p] { assert Inside(s, own[p], p); }
  }
}
