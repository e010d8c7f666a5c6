/**
Black lists (libs/gc/blacklst.c:228-257): hash tables of page numbers near which false pointers were
seen.  Pages are numbered by address / HBLKSIZE; a table word is the set of its bits that are on.
 */
module BlackLists {
  import opened Arithmetic

  type WordSize = n: nat | 0 < n witness 1

  /** Bits in a word. */
  const WORDSZ: WordSize

  type TableSize = n: nat | 0 < n witness 1

  /** PHT_SIZE: words in a table; PHT_ENTRIES is a power of two no smaller than the word size. */
  const PHT_SIZE: TableSize

  function Nothing(): set<nat> { {} }

  type Table = t: seq<set<nat>> | |t| == PHT_SIZE witness seq(PHT_SIZE, (i: nat) => Nothing())

  /** Where the bit of a page is: the word and the position in the word. */
  datatype Index = Index(word: nat, bit: nat)

  /** PHT_HASH: consecutive pages have consecutive bits, and the last is followed by the first. */
  function Hash(h: nat): (i: Index)
    ensures i.word < PHT_SIZE && i.bit < WORDSZ
  {
    DivBound(h % (PHT_SIZE * WORDSZ), PHT_SIZE, WORDSZ);
    Index(h % (PHT_SIZE * WORDSZ) / WORDSZ, h % (PHT_SIZE * WORDSZ) % WORDSZ)
  }

  /** The two generations of both lists; interior is GC_all_interior_pointers. */
  datatype Lists = Lists(oldNormal: Table, incompleteNormal: Table, oldStack: Table, incompleteStack: Table, interior: bool)

  predicate Bit(t: Table, index: Index)
    requires index.word < PHT_SIZE
  {
    index.bit in t[index.word]
  }

  /** No object may start on this page. */
  predicate NormalBlack(bl: Lists, h: nat) {
    !bl.interior && (Bit(bl.oldNormal, Hash(h)) || Bit(bl.incompleteNormal, Hash(h)))
  }

  /** No object may extend over this page. */
  predicate StackBlack(bl: Lists, h: nat) {
    Bit(bl.oldStack, Hash(h)) || Bit(bl.incompleteStack, Hash(h))
  }

  /** Every page from h on is free of stack black-listing, n of them and at least one. */
  ghost predicate StackClean(bl: Lists, h: nat, n: nat) {
    forall p: nat :: h <= p < h + n || p == h ==> !StackBlack(bl, p)
  }

  /** A block of n pages may be allocated at h. */
  ghost predicate Clean(bl: Lists, h: nat, n: nat) {
    !NormalBlack(bl, h) && StackClean(bl, h, n)
  }

  /** If a word of the table is empty, all pages up to the next word are free of its black-listing. */
  lemma EmptyWord(t: Table, h: nat, p: nat)
    requires t[Hash(h).word] == {} && h <= p < h + (WORDSZ - Hash(h).bit)
    ensures !Bit(t, Hash(p))
  {
    SameWord(h, p - h, PHT_SIZE, WORDSZ);
  }

  /** An index range that stays within a word does not wrap around the table. */
  lemma SameWord(h: nat, d: nat, n: nat, w: nat)
    requires 0 < w && 0 < n && d < w - h % (n * w) % w
    ensures (h + d) % (n * w) / w == h % (n * w) / w
  {
    var x := h % (n * w);
    DivBound(x, n, w);
    MulMono(x / w, n - 1, w);
    assert x == (x / w) * w + x % w;
    SameGroup(h, d, n * w);
    SameGroup(x, d, w);
  }

  /**
   * GC_is_black_listed: 0 exactly if the block may be allocated at h; otherwise every page from h up
   * to r, excluding r, is no good either.  It agrees with the bit by bit scan.
   */
  method IsBlackListed(bl: Lists, h: nat, nblocks: nat) returns (r: nat)
    ensures r == 0 <==> Clean(bl, h, nblocks)
    ensures r != 0 ==> h < r && forall q: nat :: h <= q < r ==> !Clean(bl, q, nblocks)
    ensures r == if NormalBlack(bl, h) then h + 1 else FirstBlack(bl, h, if nblocks == 0 then 1 else nblocks)
  {
    var index := Hash(h);
    if !bl.interior && (Bit(bl.oldNormal, index) || Bit(bl.incompleteNormal, index)) {
      return h + 1;
    }
    var i := 0;
    while true
      invariant index == Hash(h + i)
      invariant i == 0 || i < nblocks
      invariant forall p: nat :: h <= p < h + i ==> !StackBlack(bl, p)
      decreases nblocks - i
    {
      ghost var i0 := i;
      if bl.oldStack[index.word] == {} && bl.incompleteStack[index.word] == {} {
        i := i + (WORDSZ - index.bit);
        forall p: nat | h <= p < h + i ensures !StackBlack(bl, p) {
          if h + i0 <= p {
            EmptyWord(bl.oldStack, h + i0, p);
            EmptyWord(bl.incompleteStack, h + i0, p);
          }
        }
      } else {
        if Bit(bl.oldStack, index) || Bit(bl.incompleteStack, index) {
          FirstBlackAt(bl, h, if nblocks == 0 then 1 else nblocks, i);
          assert StackBlack(bl, h + i);
          return h + i + 1;
        }
        i := i + 1;
      }
      if i >= nblocks { break; }
      index := Hash(h + i);
    }
    NoneBlack(bl, h, if nblocks == 0 then 1 else nblocks);
    return 0;
  }

  /** The plain scan: one past the first black-listed page among n, or 0. */
  ghost function FirstBlack(bl: Lists, h: nat, n: nat): nat
    decreases n
  {
    if n == 0 then 0 else if StackBlack(bl, h) then h + 1 else FirstBlack(bl, h + 1, n - 1)
  }

  lemma {:induction false} FirstBlackAt(bl: Lists, h: nat, n: nat, i: nat)
    requires i < n && StackBlack(bl, h + i) && forall p: nat :: h <= p < h + i ==> !StackBlack(bl, p)
    ensures FirstBlack(bl, h, n) == h + i + 1
    decreases n
  {
    if 0 < i { FirstBlackAt(bl, h + 1, n - 1, i - 1); }
  }

  lemma {:induction false} NoneBlack(bl: Lists, h: nat, n: nat)
    requires forall p: nat :: h <= p < h + n ==> !StackBlack(bl, p)
    ensures FirstBlack(bl, h, n) == 0
    decreases n
  {
    if 0 < n { NoneBlack(bl, h + 1, n - 1); }
  }
}
