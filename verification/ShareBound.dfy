/**
How many entries parallel marking may return to the mark stack on account of one range of words, as long as
nothing new is marked (libs/gc/mark.c:680-706, 942-1045).  Sizes are in words; `share` is SHARE_BYTES.
 */
module ShareBound {

  /** GC_steal_mark_stack takes at most this many entries before the last one. */
  const ENTRIES_TO_GET: nat := 5

  /** 4 GB in words of 4 bytes. */
  const LONGEST: nat := 0x4000_0000

  /** How often GC_mark_from splits the range before its lower part is short enough. */
  function Depth(share: nat, size: nat): nat
    requires 2 <= share
  {
    if size <= share then 0 else 1 + Depth(share, size / 2 + 1)
  }

  /** The entries that come of a range which one of k threads has on top of its local stack. */
  function Scanned(share: nat, k: nat, size: nat): nat
    requires 2 <= share
    decreases size, 0
  {
    if size <= share then 0 else 1 + k * Taken(share, k, size / 2 + 1) + Scanned(share, k, size - size / 2)
  }

  /** The entries that come of a range which a thread takes from the global stack, with up to five others. */
  function Taken(share: nat, k: nat, size: nat): nat
    requires 2 <= share
    decreases size, 1
  {
    if size <= share then 0 else ENTRIES_TO_GET + Scanned(share, k, size)
  }

  lemma Scale(k: nat, x: nat, y: nat)
    requires x <= y
    ensures k * x <= k * y
  {
  }

  lemma Product(k: nat, m: nat, x: nat, y: nat)
    requires k <= m && x <= y
    ensures k * x <= m * y
  {
    Scale(k, x, y);
    Scale(y, k, m);
  }

  lemma {:induction false} DepthMonotone(share: nat, size: nat, more: nat)
    requires 2 <= share && size <= more
    ensures Depth(share, size) <= Depth(share, more)
    decreases more
  {
    if share < size { DepthMonotone(share, size / 2 + 1, more / 2 + 1); }
  }

  /** Longer ranges give more entries. */
  lemma {:induction false} ScannedMonotone(share: nat, k: nat, size: nat, more: nat)
    requires 2 <= share && size <= more
    ensures Scanned(share, k, size) <= Scanned(share, k, more) && Taken(share, k, size) <= Taken(share, k, more)
    decreases more
  {
    if share < size {
      ScannedMonotone(share, k, size / 2 + 1, more / 2 + 1);
      ScannedMonotone(share, k, size - size / 2, more - more / 2);
      Scale(k, Taken(share, k, size / 2 + 1), Taken(share, k, more / 2 + 1));
    }
  }

  /** More threads give more entries. */
  lemma {:induction false} ScannedThreads(share: nat, k: nat, m: nat, size: nat)
    requires 2 <= share && k <= m
    ensures Scanned(share, k, size) <= Scanned(share, m, size) && Taken(share, k, size) <= Taken(share, m, size)
    decreases size
  {
    if share < size {
      ScannedThreads(share, k, m, size / 2 + 1);
      ScannedThreads(share, k, m, size - size / 2);
      Product(k, m, Taken(share, k, size / 2 + 1), Taken(share, m, size / 2 + 1));
    }
  }

  function Power(n: nat): nat { if n == 0 then 1 else 2 * Power(n - 1) }

  lemma PowerOfByte(n: nat)
    ensures Power(n + 8) == 256 * Power(n)
  {
    assert Power(n + 2) == 4 * Power(n);
    assert Power(n + 4) == 16 * Power(n);
    assert Power(n + 6) == 64 * Power(n);
  }

  /** The depth is logarithmic. */
  lemma {:induction false} DepthLog(share: nat, size: nat, n: nat)
    requires 3 <= share && size <= 2 + (share - 2) * Power(n)
    ensures Depth(share, size) <= n
    decreases n
  {
    if share < size {
      assert (share - 2) * Power(n) == 2 * ((share - 2) * Power(n - 1));
      DepthLog(share, size / 2 + 1, n - 1);
    }
  }

  /** A range shorter than 2^32 words is not split deeply. */
  lemma DepthSmall(share: nat)
    requires 128 <= share
    ensures Depth(share, LONGEST) <= 30
  {
    PowerOfByte(0);
    PowerOfByte(8);
    PowerOfByte(16);
    assert Power(30) == 64 * Power(24);
    assert (share - 2) * Power(30) >= Power(30);
    DepthLog(share, LONGEST, 30);
  }
}
