/**
The map from request sizes to object sizes (GC_size_map, libs/gc/misc.c:148-224): entry i is the
size, in granules, of the objects that serve requests for i bytes, or 0 if it is not yet filled in.
 */
module SizeMap {
  import opened Arithmetic

  type GranuleSize = n: nat | n == 8 || n == 16 witness 16
  type ExtraBytes = n: nat | n <= 1 witness 0
  type TinyLists = n: nat | 9 <= n witness 25

  const GRANULE_BYTES: GranuleSize

  /** One byte is added to every request if interior pointers are recognised. */
  const EXTRA_BYTES: ExtraBytes

  const TINY_FREELISTS: TinyLists

  /** Half a block; even, and at least the sizes that have free lists of their own. */
  type ObjGranules = n: nat | TINY_FREELISTS <= n && n % 2 == 0 witness 2 * TINY_FREELISTS

  const MAXOBJGRANULES: ObjGranules

  const HBLK_GRANULES: nat := 2 * MAXOBJGRANULES

  const MAXOBJBYTES: nat := MAXOBJGRANULES * GRANULE_BYTES

  /** ROUNDED_UP_GRANULES: the granules that n bytes and the extra byte need. */
  function Granules(n: nat): nat { (n + GRANULE_BYTES - 1 + EXTRA_BYTES) / GRANULE_BYTES }

  function Bytes(g: nat): nat { g * GRANULE_BYTES }

  /** Rounding up to granules adds less than one. */
  lemma GranulesTight(n: nat)
    ensures n + EXTRA_BYTES <= Bytes(Granules(n)) <= n + EXTRA_BYTES + GRANULE_BYTES - 1
  {
  }

  lemma BytesMono(a: nat, b: nat)
    ensures a <= b ==> Bytes(a) <= Bytes(b)
    ensures Bytes(a + b) == Bytes(a) + Bytes(b)
  {
    if a <= b { MulMono(a, b, GRANULE_BYTES); }
  }

  /** Objects of g granules serve requests for j bytes. */
  predicate Holds(g: nat, j: nat) { j + EXTRA_BYTES <= Bytes(g) }

  /** No smaller objects do. */
  ghost predicate LeastFor(g: nat, j: nat) { Holds(g, j) && forall h: nat :: Holds(h, j) ==> g <= h }

  /** ... and are at most twice as large, but for three granules. */
  predicate Modest(g: nat, j: nat) { Bytes(g) <= 2 * j + 3 * GRANULE_BYTES }

  /** Rounding up to an even number, and no further than half a block. */
  function EvenUp(g: nat): nat {
    var e := (g + 1) / 2 * 2;
    if MAXOBJGRANULES < e then MAXOBJGRANULES else e
  }

  /** The largest even size of which as many objects fit in a block. */
  function BlockFit(g: nat): nat
    requires 0 < g <= MAXOBJGRANULES
  {
    FitsTwice(g);
    HBLK_GRANULES / (HBLK_GRANULES / g) / 2 * 2
  }

  lemma FitsTwice(g: nat)
    requires 0 < g <= MAXOBJGRANULES
    ensures 2 <= HBLK_GRANULES / g
  {
    var n := HBLK_GRANULES / g;
    assert HBLK_GRANULES == n * g + HBLK_GRANULES % g;
    if n < 2 { MulMono(n, 1, g); }
  }

  /** f is the largest number of which n fit in a block of h, as n is the number of g that fit. */
  lemma Largest(h: int, g: int, n: int, f: int, a: int, b: int)
    requires 2 <= n && 0 < g && h == n * g + a && 0 <= a < g && h == f * n + b && 0 <= b < n
    ensures g <= f && 2 * f < 3 * g && f * n <= h < n * g + g
  {
    if f < g { MulMono(f + 1, g, n); }
    if 3 * g <= 2 * f {
      MulMono(3 * g, 2 * f, n);
      MulMono(2, n, g);
    }
  }

  lemma SameNumber(h: int, g: int, n: int, e: int)
    requires 2 <= n && 0 < g <= e && e * n <= h < n * g + g
    ensures h / e == n
  {
    MulMono(g, e, n + 1);
    DivModUnique(h, e, n, h - n * e);
  }

  lemma Filled(h: nat, m: nat, g: nat, n: nat, f: nat)
    requires h == 2 * m && 0 < g <= m && 2 <= n && n == h / g && f == h / n
    ensures g <= f <= m && 2 * f < 3 * g && f * n <= h < n * g + g
  {
    Largest(h, g, n, f, h % g, h % n);
    if m < f { MulMono(2, n, f); }
  }

  /** Filling the block does not make objects smaller, nor larger by half, nor larger than half a block. */
  lemma BlockFitOk(g: nat)
    requires 0 < g <= MAXOBJGRANULES && g % 2 == 0
    ensures g <= BlockFit(g) <= MAXOBJGRANULES && 2 * BlockFit(g) < 3 * g && BlockFit(g) % 2 == 0
    ensures HBLK_GRANULES / BlockFit(g) == HBLK_GRANULES / g
  {
    FitsTwice(g);
    var n := HBLK_GRANULES / g;
    var f := HBLK_GRANULES / n;
    Filled(HBLK_GRANULES, MAXOBJGRANULES, g, n, f);
    Evened(HBLK_GRANULES, g, n, f, BlockFit(g));
  }

  lemma Evened(h: nat, g: nat, n: nat, f: nat, e: nat)
    requires 0 < g && g % 2 == 0 && g <= f && 2 * f < 3 * g && 2 <= n && f * n <= h < n * g + g && e == f / 2 * 2
    ensures g <= e <= f && e % 2 == 0 && h / e == n
  {
    MulMono(e, f, n);
    SameNumber(h, g, n, e);
  }

  predicate EntryOk(g: nat, j: nat) { g != 0 ==> g <= MAXOBJGRANULES && Holds(g, j) && Modest(g, j) }

  /** A filled section of the table ends at n. */
  predicate EndsAt(s: seq<nat>, n: int) { 0 <= n < |s| && s[n] != 0 && (n + 1 < |s| ==> s[n + 1] == 0) }

  /** A filled section that ends at n has at least n / 4 entries. */
  ghost predicate SectionsLong(s: seq<nat>) {
    forall n, j :: EndsAt(s, n) && 0 <= j <= n && 4 * (n - j) < n ==> s[j] != 0
  }

  /** s with the entries from low to high filled with g. */
  ghost predicate IsFilled(s: seq<nat>, t: seq<nat>, low: nat, high: nat, g: nat) {
    && |t| == |s| && low <= high < |s| && g != 0
    && forall j :: 0 <= j < |s| ==> t[j] == if low <= j <= high then g else s[j]
  }

  lemma FillKeepsSections(s: seq<nat>, t: seq<nat>, low: nat, high: nat, g: nat)
    requires SectionsLong(s) && IsFilled(s, t, low, high, g)
    requires forall j :: 0 <= j < low && 4 * (high - j) < high ==> s[j] != 0
    ensures SectionsLong(t)
  {
    forall n, j | EndsAt(t, n) && 0 <= j <= n && 4 * (n - j) < n ensures t[j] != 0 {
      if high < n || n + 1 < low { assert EndsAt(s, n); }
    }
  }

  /** The entries before low are filled from three quarters of the new end on. */
  lemma QuarterFilled(s: seq<nat>, first: nat, low: nat, high: nat)
    requires first <= low <= |s| && low <= high && (forall j :: first <= j < low ==> s[j] != 0)
    requires high <= 4 * (high - first + 1)
    ensures forall j :: 0 <= j < low && 4 * (high - j) < high ==> s[j] != 0
  {
  }

  /** A section that ends just before low grows by more than a quarter of what its end moves. */
  lemma SectionGrows(s: seq<nat>, low: nat, high: nat)
    requires SectionsLong(s) && 0 < low <= high && EndsAt(s, low - 1)
    ensures forall j :: 0 <= j < low && 4 * (high - j) < high ==> s[j] != 0
  {
  }

  /** Where the search for the lowest entry begins: below any i that has no entry after initialisation. */
  lemma StartBelow(i: nat)
    requires Bytes(TINY_FREELISTS - 1) < i + EXTRA_BYTES
    ensures var b := Bytes(Granules(i)); b - b / 4 <= b - b / 8 < i && b % 8 == 0
  {
    var b := Bytes(Granules(i));
    GranulesTight(i);
    BytesMono(8, TINY_FREELISTS - 1);
    BytesMono(9, Granules(i));
    BytesMono(Granules(i), 8);
    assert Bytes(8) == 8 * GRANULE_BYTES && Bytes(9) == 9 * GRANULE_BYTES;
    EightDivides(Granules(i));
  }

  lemma EightDivides(g: nat)
    ensures Bytes(g) % 8 == 0
  {
    if GRANULE_BYTES == 8 { assert Bytes(g) == g * 8; } else { assert Bytes(g) == (2 * g) * 8; }
  }

  /** What the search for the lowest entry needs of the size for i bytes. */
  lemma SizeBounds(i: nat) returns (b: nat)
    requires Bytes(TINY_FREELISTS - 1) < i + EXTRA_BYTES
    ensures b == Bytes(Granules(i)) && 0 <= b - b / 4 <= b - b / 8 < i && 0 < Granules(i)
    ensures 3 * b <= 4 * (b - b / 4)
  {
    b := Bytes(Granules(i));
    StartBelow(i);
    GranulesTight(i);
    assert Bytes(0) == 0;
  }

  /** What is done to the size before it is entered. */
  function Rounded(g: nat): nat
    requires 0 < g
  {
    BlockFit(EvenUp(g))
  }

  /** The size that is entered serves requests up to that for i bytes, and is modest for those from low on. */
  lemma RoundedOk(i: nat, g: nat, low: nat)
    requires i + EXTRA_BYTES <= MAXOBJBYTES && 0 < Granules(i) <= g && low <= i
    requires 8 * Bytes(g) <= 9 * (low + GRANULE_BYTES) || 3 * Bytes(g) <= 4 * low
    ensures var r := Rounded(g); 0 < r <= MAXOBJGRANULES && Holds(r, i) && Modest(r, low)
  {
    var r := Rounded(g);
    var e := RoundedBetween(i, g);
    GranulesTight(i);
    hide Rounded, Granules;
    BytesMono(Granules(i), r);
    BytesMono(e, g + 1);
    BytesMono(g, 1);
    BytesMono(2 * r + 1, 3 * e);
    Multiples(r, e);
    assert Bytes(1) == GRANULE_BYTES;
    hide Bytes;
  }

  lemma RoundedBetween(i: nat, g: nat) returns (e: nat)
    requires i + EXTRA_BYTES <= MAXOBJBYTES && 0 < Granules(i) <= g
    ensures Granules(i) <= e <= g + 1 && e <= Rounded(g) <= MAXOBJGRANULES && 2 * Rounded(g) < 3 * e && 0 < e
  {
    GranulesAtMost(i);
    e := EvenUp(g);
    hide Granules, BlockFit;
    BlockFitOk(e);
  }

  lemma Multiples(r: nat, e: nat)
    ensures Bytes(2 * r + 1) == 2 * Bytes(r) + GRANULE_BYTES && Bytes(3 * e) == 3 * Bytes(e)
  {
  }

  lemma GranulesAtMost(i: nat)
    requires i + EXTRA_BYTES <= MAXOBJBYTES
    ensures Granules(i) <= MAXOBJGRANULES
  {
    GranulesTight(i);
    if MAXOBJGRANULES < Granules(i) { BytesMono(MAXOBJGRANULES + 1, Granules(i)); BytesMono(MAXOBJGRANULES, 1); }
  }

  ghost predicate FilledFrom(s: seq<nat>, first: int, low: int) {
    0 <= first <= low <= |s| && forall j :: first <= j < low ==> s[j] != 0
  }

  /** The section that is filled up to the end of what objects of g granules serve is long. */
  lemma SectionOk(s: seq<nat>, i: nat, low: nat, g: nat)
    requires SectionsLong(s) && low <= i < |s| && Holds(g, i) && Bytes(TINY_FREELISTS - 1) < i + EXTRA_BYTES
    requires Bytes(Granules(i)) <= Bytes(g)
    requires EndsAt(s, low - 1) || FilledFrom(s, Bytes(Granules(i)) - Bytes(Granules(i)) / 4, low)
    ensures var high := Bytes(g) - EXTRA_BYTES; forall j :: 0 <= j < low && 4 * (high - j) < high ==> s[j] != 0
  {
    var high := Bytes(g) - EXTRA_BYTES;
    StartBelow(i);
    assert low <= high;
    hide Granules, Bytes;
    if EndsAt(s, low - 1) {
      SectionGrows(s, low, high);
    } else {
      var b := Bytes(Granules(i));
      QuarterBound(b, high);
      hide SectionsLong, EndsAt;
      QuarterFilled(s, b - b / 4, low, high);
    }
  }

  lemma QuarterBound(b: nat, high: int)
    requires b % 8 == 0 && b - 1 <= high
    ensures high <= 4 * (high - (b - b / 4) + 1)
  {
  }

  /**
  Every filled entry holds its requests and is modest; the entries of the tiny sizes are filled; filled
  sections are long.
   */
  ghost predicate TableOk(s: seq<nat>) {
    && |s| == MAXOBJBYTES + 1
    && (forall j :: 0 <= j < |s| ==> EntryOk(s[j], j))
    && (forall j :: 0 <= j < |s| && j + EXTRA_BYTES <= Bytes(TINY_FREELISTS - 1) ==> s[j] != 0)
    && SectionsLong(s)
  }

  /** What Choose finds: the lowest entry to fill and a size. */
  ghost predicate Chosen(s: seq<nat>, i: nat, low: nat, g: nat) {
    && low <= i && 0 < Granules(i) <= g
    && (8 * Bytes(g) <= 9 * (low + GRANULE_BYTES) || 3 * Bytes(g) <= 4 * low)
    && (EndsAt(s, low - 1) || FilledFrom(s, Bytes(Granules(i)) - Bytes(Granules(i)) / 4, low))
  }

  ghost predicate FirstEmptyFrom(s: seq<nat>, start: nat, k: nat) {
    start <= k < |s| && s[k] == 0 && forall j :: start <= j < k ==> s[j] != 0
  }

  /**
   * The policy of GC_extend_size_map: if the entry an eighth below is empty too, fill from a quarter below with the least
   * size; otherwise fill from there on, with a size an eighth above the least for the lowest entry.
   */
  ghost predicate Quantised(s: seq<nat>, i: nat, low: nat, g: nat) {
    var b := Bytes(Granules(i));
    b - b / 8 < |s|
    && if s[b - b / 8] == 0 then FirstEmptyFrom(s, b - b / 4, low) && g == Granules(i)
       else
         var l := Granules(low) + Granules(low) / 8;
         FirstEmptyFrom(s, b - b / 8 + 1, low) && g == if Granules(i) <= l then l else Granules(i)
  }

  lemma ChosenOk(s: seq<nat>, i: nat, low: nat, g: nat)
    requires TableOk(s) && i + EXTRA_BYTES <= MAXOBJBYTES && s[i] == 0 && Chosen(s, i, low, g)
    ensures var r := Rounded(g); 0 < r && EXTRA_BYTES <= Bytes(r)
    ensures var high := Bytes(Rounded(g)) - EXTRA_BYTES; i <= high < |s|
    ensures forall t :: IsFilled(s, t, low, Bytes(Rounded(g)) - EXTRA_BYTES, Rounded(g)) ==> TableOk(t)
  {
    RoundedOk(i, g, low);
    var r := Rounded(g);
    var high := Bytes(r) - EXTRA_BYTES;
    GranulesTight(i);
    EvenUpOk(i, g);
    BytesMono(Granules(i), r);
    BytesMono(r, MAXOBJGRANULES);
    hide Rounded, Granules, Chosen;
    SectionOk(s, i, low, r);
    hide FilledFrom;
    forall t | IsFilled(s, t, low, high, r) ensures TableOk(t) { FillKeepsSections(s, t, low, high, r); }
  }

  lemma EvenUpOk(i: nat, g: nat)
    requires i + EXTRA_BYTES <= MAXOBJBYTES && 0 < Granules(i) <= g
    ensures Granules(i) <= Rounded(g)
  {
    var e := RoundedBetween(i, g);
  }

  class SizeTable {
    const sizes: array<nat>  // GC_size_map

    ghost predicate Valid()
      reads this, sizes
    {
      TableOk(sizes[..])
    }

    /** GC_init_size_map: requests that have a free list of their own get the least size that serves them. */
    constructor ()
      ensures Valid() && fresh(sizes) && sizes.Length == MAXOBJBYTES + 1 && sizes[0] == 1
      ensures forall j :: 0 < j && j + EXTRA_BYTES <= Bytes(TINY_FREELISTS - 1) ==>
        j < sizes.Length && LeastFor(sizes[j], j) && 0 < sizes[j] < TINY_FREELISTS
      ensures forall j :: 0 <= j < sizes.Length && Bytes(TINY_FREELISTS - 1) < j + EXTRA_BYTES ==> sizes[j] == 0
    {
      sizes := new nat[MAXOBJBYTES + 1](_ => 0);
      new;
      sizes[0] := 1;
      BytesMono(TINY_FREELISTS - 1, MAXOBJGRANULES);
      BytesMono(1, TINY_FREELISTS - 1);
      assert Bytes(1) == GRANULE_BYTES;
      var i := 1;
      while i + EXTRA_BYTES <= Bytes(TINY_FREELISTS - 1)
        invariant 1 <= i <= sizes.Length && i + EXTRA_BYTES <= Bytes(TINY_FREELISTS - 1) + 1
        invariant forall j :: 0 <= j < sizes.Length ==> if j < i then sizes[j] != 0 && EntryOk(sizes[j], j) else sizes[j] == 0
        invariant sizes[0] == 1 && forall j :: 0 < j < i ==> LeastFor(sizes[j], j) && sizes[j] < TINY_FREELISTS
      {
        TinyOk(i);
        TinyLeast(i);
        sizes[i] := Granules(i);
        i := i + 1;
      }
      ghost var s := sizes[..];
      forall n, j | EndsAt(s, n) && 0 <= j <= n && 4 * (n - j) < n ensures s[j] != 0 { }
    }

    /** The lowest entry to fill and the size to enter, before rounding. */
    method Choose(i: nat) returns (low: nat, g: nat)
      requires Valid() && i + EXTRA_BYTES <= MAXOBJBYTES && sizes[i] == 0
      ensures Chosen(sizes[..], i, low, g) && sizes[low] == 0 && Quantised(sizes[..], i, low, g)
    {
      hide SectionsLong, EntryOk;
      assert i < sizes.Length && Bytes(TINY_FREELISTS - 1) < i + EXTRA_BYTES;
      hide TableOk;
      ghost var b := SizeBounds(i);
      assert b == Bytes(Granules(i));
      hide Granules, Bytes;
      g := Granules(i);
      var byteSz := Bytes(g);
      var smaller, muchSmaller := byteSz - byteSz / 8, byteSz - byteSz / 4;
      if sizes[smaller] == 0 {
        low := FirstEmpty(muchSmaller, i);
      } else {
        low := FirstEmpty(smaller + 1, i);
        assert low - 1 == smaller || sizes[low - 1] != 0;
        assert EndsAt(sizes[..], low - 1);
        var lower := Granules(low);
        lower := lower + lower / 8;
        NineEighths(low);
        if g <= lower { g := lower; }
      }
    }

    /**
    GC_extend_size_map fills the entries from low to high, i among them, with one size that serves their
    requests.
     */
    method Extend(i: nat) returns (ghost low: nat, ghost high: nat, ghost g: nat)
      requires Valid() && i + EXTRA_BYTES <= MAXOBJBYTES && sizes[i] == 0
      modifies sizes
      ensures Valid() && low <= i <= high < sizes.Length
      ensures IsFilled(old(sizes[..]), sizes[..], low, high, sizes[i])
      ensures Quantised(old(sizes[..]), i, low, g) && 0 < g && sizes[i] == Rounded(g) && Bytes(sizes[i]) == high + EXTRA_BYTES
    {
      ghost var s := sizes[..];
      var lowLimit, granuleSz := Choose(i);
      ChosenOk(s, i, lowLimit, granuleSz);
      g := granuleSz;
      hide Quantised;
      hide Bytes, TableOk, BlockFit, EvenUp;
      granuleSz := Rounded(granuleSz);
      hide Rounded;
      var byteSz := Bytes(granuleSz) - EXTRA_BYTES;
      low, high := lowLimit, byteSz;
      Fill(lowLimit, byteSz, granuleSz);
    }

    method FirstEmpty(start: nat, ghost i: nat) returns (k: nat)
      requires start <= i < sizes.Length && sizes[i] == 0
      ensures start <= k <= i && sizes[k] == 0 && forall j :: start <= j < k ==> sizes[j] != 0
    {
      k := start;
      while sizes[k] != 0
        invariant start <= k <= i && forall j :: start <= j < k ==> sizes[j] != 0
        decreases i - k
      {
        k := k + 1;
      }
    }

    method Fill(low: nat, high: nat, g: nat)
      requires low <= high < sizes.Length && g != 0
      modifies sizes
      ensures IsFilled(old(sizes[..]), sizes[..], low, high, g)
    {
      for j := low to high + 1
        invariant forall k :: 0 <= k < sizes.Length ==> sizes[k] == if low <= k < j then g else old(sizes[k])
      {
        sizes[j] := g;
      }
    }
  }

  lemma TinyOk(i: nat)
    requires 0 < i && i + EXTRA_BYTES <= Bytes(TINY_FREELISTS - 1)
    ensures Granules(i) != 0 && EntryOk(Granules(i), i)
  {
    GranulesTight(i);
    BytesMono(TINY_FREELISTS - 1, MAXOBJGRANULES);
    GranulesAtMost(i);
  }

  /** ROUNDED_UP_GRANULES is the least number of granules that serves the request. */
  lemma TinyLeast(i: nat)
    ensures LeastFor(Granules(i), i) && (i + EXTRA_BYTES <= Bytes(TINY_FREELISTS - 1) ==> Granules(i) < TINY_FREELISTS)
  {
    GranulesTight(i);
    forall h: nat | Holds(h, i) ensures Granules(i) <= h {
      if h < Granules(i) {
        BytesMono(h, 1);
        BytesMono(h + 1, Granules(i));
      }
    }
    assert i + EXTRA_BYTES <= Bytes(TINY_FREELISTS - 1) ==> Holds(TINY_FREELISTS - 1, i);
  }

  lemma NineEighths(k: nat)
    ensures var g := Granules(k); 8 * Bytes(g + g / 8) <= 9 * (k + GRANULE_BYTES)
  {
    var g := Granules(k);
    GranulesTight(k);
    BytesMono(8 * (g + g / 8), 9 * g);
    Times(8, g + g / 8);
    Times(9, g);
  }

  lemma Times(n: nat, g: nat)
    ensures Bytes(n * g) == n * Bytes(g)
  {
  }
}
