/** Object slots, and what GC_base (libs/gc/misc.c:352-389) makes of an address. */
module ObjectBase {
  import opened Arithmetic
  import opened HeapShape
  import opened HeaderIndex

  type WordBytes = n: nat | 0 < n && HBLKSIZE % n == 0 witness 1

  /** Bytes in a word; it divides HBLKSIZE. */
  const WORD_BYTES: WordBytes

  /** Object sizes are whole words. */
  ghost predicate WordSizes(s: Shape, z: Sizes) {
    forall b: nat :: IsUsed(s, b) && b in z ==> z[b] % WORD_BYTES == 0
  }

  function SlotStart(z: nat, b: nat, i: nat): nat { b * HBLKSIZE + i * z }

  /** Slot i of a block with objects of z bytes lies in the block. */
  predicate IsSlot(z: nat, i: nat) { if z <= HBLKSIZE then (i + 1) * z <= HBLKSIZE else i == 0 }

  /** Address p lies in slot i of block b. */
  ghost predicate InSlot(s: Shape, z: Sizes, b: nat, i: nat, p: nat) {
    IsUsed(s, b) && b in z && IsSlot(z[b], i) && SlotStart(z[b], b, i) <= p < SlotStart(z[b], b, i) + z[b]
  }

  function PageOf(p: nat): nat { p / HBLKSIZE }

  lemma ToBlocksBound(z: nat)
    requires 1 <= z
    ensures (ToBlocks(z) - 1) * HBLKSIZE < z <= ToBlocks(z) * HBLKSIZE
    ensures z <= HBLKSIZE <==> ToBlocks(z) == 1
  {
    var n := ToBlocks(z);
    var r := (z + HBLKSIZE - 1) % HBLKSIZE;
    assert z + HBLKSIZE - 1 == n * HBLKSIZE + r;
    if z <= HBLKSIZE { DivModUnique(z + HBLKSIZE - 1, HBLKSIZE, 1, z - 1); } else if n <= 1 { MulMono(n, 1, HBLKSIZE); }
  }

  lemma PageBound(p: nat, b: nat, n: nat)
    requires b * HBLKSIZE <= p < (b + n) * HBLKSIZE
    ensures b <= PageOf(p) < b + n
  {
    DivBound(p, b + n, HBLKSIZE);
    assert p < (PageOf(p) + 1) * HBLKSIZE;
    if PageOf(p) < b { MulMono(PageOf(p) + 1, b, HBLKSIZE); }
  }

  lemma SlotBytes(z: nat, b: nat, i: nat, p: nat)
    requires 1 <= z && IsSlot(z, i) && SlotStart(z, b, i) <= p < SlotStart(z, b, i) + z
    ensures b <= PageOf(p) < b + ToBlocks(z)
  {
    ToBlocksBound(z);
    var n := ToBlocks(z);
    MulMono(0, i, z);
    assert i * z + z == (i + 1) * z;
    assert (b + n) * HBLKSIZE == b * HBLKSIZE + n * HBLKSIZE;
    PageBound(p, b, n);
  }

  /** A slot that contains p is in the block that owns the page of p. */
  lemma SlotPage(s: Shape, own: Owners, z: Sizes, b: nat, i: nat, p: nat)
    requires Tiled(s, own) && SizesOk(s, z) && InSlot(s, z, b, i, p)
    ensures Inside(s, b, PageOf(p)) && PageOf(p) in own && own[PageOf(p)] == b
  {
    hide PageOf, ToBlocks, IsSlot, SlotStart;
    SlotBytes(z[b], b, i, p);
    assert Inside(s, b, PageOf(p));
  }

  lemma SameIndex(z: nat, d: int, i: nat, j: nat)
    requires i * z <= d < i * z + z && j * z <= d < j * z + z
    ensures i == j
  {
    if i < j { MulMono(i + 1, j, z); } else if j < i { MulMono(j + 1, i, z); }
  }

  /** At most one slot contains p. */
  lemma SlotUnique(s: Shape, own: Owners, z: Sizes, b: nat, i: nat, c: nat, j: nat, p: nat)
    requires Tiled(s, own) && SizesOk(s, z) && InSlot(s, z, b, i, p) && InSlot(s, z, c, j, p)
    ensures b == c && i == j
  {
    SlotPage(s, own, z, b, i, p);
    SlotPage(s, own, z, c, j, p);
    SameIndex(z[b], p - b * HBLKSIZE, i, j);
  }

  lemma Regroup(h: nat, k: nat, w: nat, e: nat)
    ensures h * (k * w) + e * w == (h * k + e) * w
  {
  }

  lemma PageAndWord(p: nat, h: nat, d: nat, k: nat, w: nat, e: nat, f: nat)
    requires p == h * (k * w) + d && d == e * w + f && f < w && d < k * w
    ensures p / w * w == h * (k * w) + e * w && (p / w * w) % (k * w) == e * w
  {
    Regroup(h, k, w, e);
    Rounding(p, w, h * k + e, f);
    Rounding(h * (k * w) + e * w, k * w, h, e * w);
  }

  lemma Rounding(x: nat, w: nat, q: nat, r: nat)
    requires r < w && x == q * w + r
    ensures x / w * w == q * w && x % w == r
  {
    DivModUnique(x, w, q, r);
  }

  lemma WordSlot(z: nat, d: nat, m: nat, w: nat, e: nat, i: nat, x: nat)
    requires z == m * w && e * w == i * z + x && x < z && e * w <= d < e * w + w && 0 < w
    ensures i * z <= d < i * z + z
  {
    Regroup(i, m, w, m);
    NextWord(e, i * m + m, w);
  }

  lemma NextWord(a: nat, b: nat, w: nat)
    requires 0 < w && a * w < b * w
    ensures a * w + w <= b * w
  {
    if b <= a { MulMono(b, a, w); }
    MulMono(a + 1, b, w);
  }

  lemma Parts(x: nat, w: nat) returns (q: nat, r: nat)
    requires 0 < w
    ensures x == q * w + r && r < w && (x % w == 0 ==> r == 0)
  {
    q, r := x / w, x % w;
  }

  lemma PageParts(p: nat) returns (d: nat)
    ensures p == PageOf(p) * HBLKSIZE + d && d < HBLKSIZE
  {
    d := p % HBLKSIZE;
  }

  // ---------- GC_base ----------

  /** Where GC_base takes the object to start, given its size. */
  function Candidate(p: nat, z: nat): int
    requires 0 < z
  {
    var r := p / WORD_BYTES * WORD_BYTES;
    r - r % HBLKSIZE % z
  }

  /** The candidate sticks out of the first page of the block. */
  predicate SticksOut(start: int, z: nat, b: nat) { z <= HBLKSIZE && start + z > (b + 1) * HBLKSIZE }

  /** The slot that page offset d falls into, found after rounding down to a word. */
  lemma CandidateIs(p: nat, z: nat) returns (i: nat)
    requires 0 < z && z % WORD_BYTES == 0
    ensures Candidate(p, z) == SlotStart(z, PageOf(p), i) && SlotStart(z, PageOf(p), i) <= p < SlotStart(z, PageOf(p), i) + z
    ensures HBLKSIZE < z ==> i == 0
  {
    var m, m0 := Parts(z, WORD_BYTES);
    var k, k0 := Parts(HBLKSIZE, WORD_BYTES);
    var d := PageParts(p);
    var e, f := Parts(d, WORD_BYTES);
    var x;
    i, x := Parts(e * WORD_BYTES, z);
    hide PageOf;
    if HBLKSIZE < z && 1 <= i { MulMono(1, i, z); }
    CandidateAt(p, z, PageOf(p), d, k, e, f, i, x);
    WordSlot(z, d, m, WORD_BYTES, e, i, x);
    hide Candidate;
  }

  lemma CandidateAt(p: nat, z: nat, h: nat, d: nat, k: nat, e: nat, f: nat, i: nat, x: nat)
    requires p == h * HBLKSIZE + d && d < HBLKSIZE && HBLKSIZE == k * WORD_BYTES && d == e * WORD_BYTES + f && f < WORD_BYTES
    requires e * WORD_BYTES == i * z + x && x < z
    ensures Candidate(p, z) == h * HBLKSIZE + i * z
  {
    PageAndWord(p, h, d, k, WORD_BYTES, e, f);
    DivModUnique(e * WORD_BYTES, z, i, x);
    var r := p / WORD_BYTES * WORD_BYTES;
    assert r % HBLKSIZE == e * WORD_BYTES;
    assert Candidate(p, z) == r - (e * WORD_BYTES) % z;
  }

  lemma SlotFits(z: nat, b: nat, i: nat)
    requires 0 < z && (HBLKSIZE < z ==> i == 0)
    ensures IsSlot(z, i) <==> !SticksOut(SlotStart(z, b, i), z, b)
  {
    assert (i + 1) * z == i * z + z && (b + 1) * HBLKSIZE == b * HBLKSIZE + HBLKSIZE;
  }

  /** The slot GC_base computes for an address on the first page of block b. */
  lemma FirstPage(s: Shape, own: Owners, z: Sizes, b: nat, p: nat) returns (i: nat)
    requires Tiled(s, own) && SizesOk(s, z) && WordSizes(s, z) && IsUsed(s, b) && PageOf(p) == b
    ensures 0 < z[b] && Candidate(p, z[b]) <= p < Candidate(p, z[b]) + z[b]
    ensures SticksOut(Candidate(p, z[b]), z[b], b) ==> forall c: nat, j: nat :: !InSlot(s, z, c, j, p)
    ensures !SticksOut(Candidate(p, z[b]), z[b], b) ==> InSlot(s, z, b, i, p) && Candidate(p, z[b]) == SlotStart(z[b], b, i)
  {
    i := CandidateIs(p, z[b]);
    SlotFits(z[b], b, i);
    OnlyBlock(s, own, b, p);
    hide Candidate, SticksOut, IsSlot, PageOf, ToBlocks;
    forall c: nat, j: nat | InSlot(s, z, c, j, p) ensures j == i && c == b {
      SlotPage(s, own, z, c, j, p);
      hide IsUsed;
      SameIndex(z[b], p - b * HBLKSIZE, i, j);
    }
  }

  lemma OnlyBlock(s: Shape, own: Owners, b: nat, p: nat)
    requires Tiled(s, own) && b in s && PageOf(p) == b
    ensures b in own && own[b] == b
  {
    assert Inside(s, b, b);
  }

  /** The slot for an address on a later page of block b. */
  lemma LaterPage(s: Shape, own: Owners, z: Sizes, b: nat, p: nat)
    requires Tiled(s, own) && SizesOk(s, z) && IsUsed(s, b) && Inside(s, b, PageOf(p)) && b < PageOf(p)
    ensures HBLKSIZE < z[b] && b * HBLKSIZE <= p
    ensures p < b * HBLKSIZE + z[b] ==> InSlot(s, z, b, 0, p) && b * HBLKSIZE == SlotStart(z[b], b, 0)
    ensures p >= b * HBLKSIZE + z[b] ==> forall c: nat, i: nat :: !InSlot(s, z, c, i, p)
  {
    ToBlocksBound(z[b]);
    MulMono(b, PageOf(p), HBLKSIZE);
    assert 0 * z[b] == 0;
    forall c: nat, i: nat | InSlot(s, z, c, i, p) ensures p < b * HBLKSIZE + z[b] {
      SlotPage(s, own, z, c, i, p);
      assert i * z[b] == 0;
    }
  }
}
