/**
The steps of GC_merge_unmapped (libs/gc/allchblk.c:423-481).  When unmapped memory is kept on the free
lists, adjacent free blocks need not be merged; this pass merges them.
 */
module MergeSteps {
  import opened HeapShape
  import opened FreeLists
  import opened BlockSteps

  /** b and the block after it are free, and their common size does not overflow. */
  predicate Mergeable(s: Shape, limit: nat, b: nat) {
    IsFree(s, b) && IsFree(s, b + s[b].sz) && s[b].sz + s[b + s[b].sz].sz <= limit
  }

  /** Free blocks are new or have grown only as far as the limit. */
  ghost predicate WithinLimit(s: Shape, limit: nat, t: Shape) {
    forall b: nat :: IsFree(t, b) ==> t[b].sz <= limit || (b in s && s[b] == t[b])
  }

  lemma MergeWithinLimit(s: Shape, t: Shape, own: Owners, limit: nat, h: nat)
    requires WithinLimit(s, limit, t) && Tiled(t, own) && Mergeable(t, limit, h)
    ensures WithinLimit(s, limit, AbsorbNext(t, h))
  {
  }

  /** The lists before i are finished. */
  ghost predicate DoneBefore(s: Shape, limit: nat, i: nat) {
    forall b: nat :: IsFree(s, b) && FlIndex(s[b].sz) < i ==> !Mergeable(s, limit, b)
  }

  /** A merge does not give a finished block a partner: its neighbours only grow. */
  lemma MergeKeepsOthers(s: Shape, own: Owners, limit: nat, h: nat, b: nat)
    requires Tiled(s, own) && Mergeable(s, limit, h) && b != h && !Mergeable(s, limit, b)
    ensures !Mergeable(AbsorbNext(s, h), limit, b)
  {
  }

  /** The merged block is not on a list that is finished. */
  lemma MergeKeepsDone(s: Shape, own: Owners, limit: nat, h: nat, i: nat)
    requires Tiled(s, own) && Mergeable(s, limit, h) && FlIndex(s[h].sz) == i && DoneBefore(s, limit, i)
    ensures DoneBefore(AbsorbNext(s, h), limit, i)
  {
    var t := AbsorbNext(s, h);
    FlIndexMonotone(s[h].sz, t[h].sz);
    forall b: nat | IsFree(t, b) && FlIndex(t[b].sz) < i ensures !Mergeable(t, limit, b) {
      assert b != h && IsFree(s, b) && s[b] == t[b];
      MergeKeepsOthers(s, own, limit, h, b);
    }
  }

  /** The pass stands at h, the j-th block of list i; 0 is the end of the list. */
  ghost predicate Merging(v: Heap, own: Owners, pages: set<nat>, used: Shape, limit: nat, i: nat, h: nat, j: nat) {
    && Orderly(v, {}) && Tiled(v.blk, own) && own.Keys == pages && SameUsed(used, v.blk) && WithinLimit(used, limit, v.blk)
    && LengthsOf(v.fl) == Right && i <= N_HBLK_FLS && j <= |v.fl.lists[i]|
    && h == (if j < |v.fl.lists[i]| then v.fl.lists[i][j] else 0)
    && DoneBefore(v.blk, limit, i) && forall k: nat :: k < j ==> !Mergeable(v.blk, limit, v.fl.lists[i][k])
  }

  /** The state between two lists. */
  ghost predicate BetweenLists(v: Heap, own: Owners, pages: set<nat>, used: Shape, limit: nat, i: nat) {
    && Orderly(v, {}) && Tiled(v.blk, own) && own.Keys == pages && SameUsed(used, v.blk) && WithinLimit(used, limit, v.blk) && DoneBefore(v.blk, limit, i)
  }

  lemma ListStarts(v: Heap, own: Owners, pages: set<nat>, used: Shape, limit: nat, i: nat)
    requires BetweenLists(v, own, pages, used, limit, i) && i <= N_HBLK_FLS
    ensures LengthsOf(v.fl) == Right && Merging(v, own, pages, used, limit, i, v.fl.heads[i], 0)
  {
    assert ListOk(v.fl, v.blk, i);
  }

  lemma ListEnds(v: Heap, own: Owners, pages: set<nat>, used: Shape, limit: nat, i: nat, j: nat)
    requires Merging(v, own, pages, used, limit, i, 0, j)
    ensures BetweenLists(v, own, pages, used, limit, i + 1)
  {
    if j < |v.fl.lists[i]| { OnList(v.fl, v.blk, i, j); }
    forall b: nat | IsFree(v.blk, b) && FlIndex(v.blk[b].sz) < i + 1 ensures !Mergeable(v.blk, limit, b) {
      if FlIndex(v.blk[b].sz) == i {
        var k := Listing(v, {}, b);
      }
    }
  }

  /** What is known of the block the pass stands at. */
  lemma AtBlock(v: Heap, own: Owners, pages: set<nat>, used: Shape, limit: nat, i: nat, h: nat, j: nat)
    requires Merging(v, own, pages, used, limit, i, h, j) && h != 0
    ensures On(v, i, j) && v.fl.lists[i][j] == h && IsFree(v.blk, h) && h in v.fl.next && h in v.fl.prev && h in v.fl.home
      && FlIndex(v.blk[h].sz) == i && 1 <= v.blk[h].sz
    ensures !Mergeable(v.blk, limit, h) ==> Merging(v, own, pages, used, limit, i, v.fl.next[h], j + 1)
  {
    OnList(v.fl, v.blk, i, j);
    assert HomedAt(v.blk, v.fl, h);
  }

  /** Block h of v has left its list and absorbed the block after it. */
  ghost predicate Absorbed(v: Heap, x: Heap, o: Owners, pages: set<nat>, used: Shape, limit: nat, i: nat, h: nat) {
    && Orderly(x, {h}) && h !in x.fl.home && h != 0 && h in x.blk && x.blk[h].free && LengthsOf(x.fl) == Right
    && h in v.fl.home && (exists next: nat :: next in v.fl.home && next != h && x.fl.home.Keys == v.fl.home.Keys - {h} - {next})
    && Tiled(x.blk, o) && o.Keys == pages && SameUsed(used, x.blk) && WithinLimit(used, limit, x.blk) && DoneBefore(x.blk, limit, i)
  }

  lemma AbsorbOk(v: Heap, own: Owners, pages: set<nat>, used: Shape, limit: nat, i: nat, h: nat, j: nat) returns (jn: nat, o: Owners)
    requires Merging(v, own, pages, used, limit, i, h, j) && h != 0 && Mergeable(v.blk, limit, h)
    ensures On(v, i, j) && CanMergeRight(Take(v, i, j), h, jn)
    ensures Absorbed(v, MergedRight(Take(v, i, j), h, jn), o, pages, used, limit, i, h)
  {
    AtBlock(v, own, pages, used, limit, i, h, j);
    TakeOk(v, i, j, {});
    var w := Take(v, i, j);
    assert {} + {h} == {h};
    o := ShapeStep(v, own, pages, used, limit, i, h, j);
    assert w.blk == v.blk && Orderly(w, {h});
    hide Orderly, Total, Take, DoneBefore, Tiled, SameUsed, WithinLimit, MergedRight, AbsorbNext, CanMergeRight, Merging;
    jn := RightNeighbour(w, h);
    MergedRightOk(w, h, jn);
    MergedHome(w, h, jn);
  }

  /** The absorbed block goes to the list for its new size. */
  lemma MergeOk(v: Heap, x: Heap, o: Owners, pages: set<nat>, used: Shape, limit: nat, i: nat, h: nat)
    requires Absorbed(v, x, o, pages, used, limit, i, h)
    ensures h in x.blk && LengthsOf(x.fl) == Right
    ensures var w := Give(x, h, x.blk[h].sz);
      |w.fl.home.Keys| < |v.fl.home.Keys| && BetweenLists(w, o, pages, used, limit, i)
  {
    var next: nat :| next in v.fl.home && next != h && x.fl.home.Keys == v.fl.home.Keys - {h} - {next};
    hide Orderly, Total, DoneBefore, Tiled, SameUsed, WithinLimit, Give;
    GiveOk(x, h, x.blk[h].sz, {h});
    assert {h} - {h} == {};
    GiveFree(x, h);
    Fewer(v.fl.home.Keys, h, next, Give(x, h, x.blk[h].sz).fl.home.Keys);
  }

  lemma Fewer(a: set<nat>, h: nat, next: nat, b: set<nat>)
    requires h in a && next in a && h != next && b == a - {h} - {next} + {h}
    ensures |b| < |a|
  {
    assert b == a - {next};
  }

  lemma GiveFree(x: Heap, h: nat)
    requires LengthsOf(x.fl) == Right && h in x.blk && x.blk[h].free
    ensures Give(x, h, x.blk[h].sz).blk == x.blk
  {
  }

  lemma ShapeStep(v: Heap, own: Owners, pages: set<nat>, used: Shape, limit: nat, i: nat, h: nat, j: nat) returns (o: Owners)
    requires Merging(v, own, pages, used, limit, i, h, j) && h != 0 && Mergeable(v.blk, limit, h)
    ensures 1 <= v.blk[h].sz
    ensures var t := AbsorbNext(v.blk, h);
      Tiled(t, o) && o.Keys == pages && SameUsed(used, t) && WithinLimit(used, limit, t) && DoneBefore(t, limit, i)
  {
    AtBlock(v, own, pages, used, limit, i, h, j);
    hide Orderly;
    AbsorbNextTiled(v.blk, own, h);
    o := AbsorbOwners(v.blk, own, h);
    MergeKeepsDone(v.blk, own, limit, h, i);
    MergeWithinLimit(used, v.blk, own, limit, h);
  }

  /** What the whole step does to the partition. */
  lemma StepShape(v: Heap, own: Owners, pages: set<nat>, used: Shape, limit: nat, i: nat, h: nat, j: nat, jn: nat)
    requires Merging(v, own, pages, used, limit, i, h, j) && h != 0 && Mergeable(v.blk, limit, h)
    requires On(v, i, j) && CanMergeRight(Take(v, i, j), h, jn)
    ensures 1 <= v.blk[h].sz
    ensures var x := MergedRight(Take(v, i, j), h, jn);
      h in x.blk && (LengthsOf(x.fl) == Right ==> Give(x, h, x.blk[h].sz).blk == AbsorbNext(v.blk, h))
  {
    AtBlock(v, own, pages, used, limit, i, h, j);
    hide Merging, Orderly;
  }

  lemma MergedHome(w: Heap, h: nat, jn: nat)
    requires Orderly(w, {h}) && CanMergeRight(w, h, jn) && IsFree(w.blk, h + w.blk[h].sz) && h !in w.fl.home
    ensures var x, next := MergedRight(w, h, jn), h + w.blk[h].sz;
      next in w.fl.home && x.fl.home.Keys == w.fl.home.Keys - {next}
      && h in x.blk && x.blk == AbsorbNext(w.blk, h) && x.blk[h].free
  {
    TakeOk(w, FlIndex(SizeOf(w.blk, h + w.blk[h].sz)), jn, {h});
  }

  /** Block h of v has left its list and absorbed the block after it, which gives x; now it goes to the list for its new size. */
  ghost predicate Stepped(v: Heap, x: Heap, o: Owners, pages: set<nat>, used: Shape, limit: nat, i: nat, h: nat) {
    && CanAbsorb(v.blk, h) && h in x.blk && LengthsOf(x.fl) == Right
    && var w := Give(x, h, x.blk[h].sz);
      |w.fl.home.Keys| < |v.fl.home.Keys| && BetweenLists(w, o, pages, used, limit, i) && w.blk == AbsorbNext(v.blk, h)
  }

  lemma WholeStep(v: Heap, own: Owners, pages: set<nat>, used: Shape, limit: nat, i: nat, h: nat, j: nat) returns (jn: nat, o: Owners)
    requires Merging(v, own, pages, used, limit, i, h, j) && h != 0 && Mergeable(v.blk, limit, h)
    ensures On(v, i, j) && v.fl.lists[i][j] == h && h in v.blk && h in v.fl.next && h in v.fl.prev
    ensures CanMergeRight(Take(v, i, j), h, jn)
    ensures Stepped(v, MergedRight(Take(v, i, j), h, jn), o, pages, used, limit, i, h)
  {
    AtBlock(v, own, pages, used, limit, i, h, j);
    assert CanAbsorb(v.blk, h);
    hide Merging, Mergeable, Absorbed, BetweenLists, CanMergeRight, MergedRight, Give, Take, AbsorbNext, CanAbsorb;
    jn, o := AbsorbOk(v, own, pages, used, limit, i, h, j);
    StepShape(v, own, pages, used, limit, i, h, j, jn);
    MergeOk(v, MergedRight(Take(v, i, j), h, jn), o, pages, used, limit, i, h);
  }
}
