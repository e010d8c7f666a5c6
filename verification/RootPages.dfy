/**
Pushing root areas page by page (GC_push_selected, libs/gc/mark.c:1318-1366), as GC_push_roots does while dirty
pages are rescanned, and what it needs of the mark stack.  Addresses are counted in units of ALIGNMENT.
 */
module RootPages {
  import opened Exclusions
  import opened MarkModel
  import Arithmetic

  /** HBLKSIZE in units of ALIGNMENT. */
  const PAGE: Positive

  /** No two pages overlap: the page of an address between two page boundaries. */
  lemma PageBetween(h: nat, x: nat)
    requires h * PAGE <= x < (h + 1) * PAGE
    ensures x / PAGE == h
  {
    Arithmetic.DivModUnique(x, PAGE, h, x - h * PAGE);
  }

  lemma PageStart(x: nat)
    ensures (x / PAGE) * PAGE <= x < (x / PAGE + 1) * PAGE
  {
  }

  /** The address lies on a page that the predicate selects. */
  predicate Selected(dirty: nat -> bool, x: int) { 0 <= x && dirty(x / PAGE) }

  /** The ranges cover all selected addresses from b up to e, and lie between b and e. */
  ghost predicate CoversSelected(rs: seq<Range>, dirty: nat -> bool, b: int, e: int) {
    && (forall x :: b <= x < e && Selected(dirty, x) ==> InSome(rs, x))
    && (forall x :: InSome(rs, x) ==> b <= x < e)
  }

  /** Ranges in ascending order that end at or before e. */
  ghost predicate UpTo(rs: seq<Range>, e: int) {
    Ascending(rs) && forall k :: 0 <= k < |rs| ==> rs[k].end <= e
  }

  lemma AddPiece(rs: seq<Range>, dirty: nat -> bool, b: int, m: int, e: int)
    requires CoversSelected(rs, dirty, b, m) && UpTo(rs, m) && b <= m < e
    ensures CoversSelected(rs + [Range(m, e)], dirty, b, e) && UpTo(rs + [Range(m, e)], e)
  {
    Extend(rs, Range(m, e));
  }

  lemma SkipPiece(rs: seq<Range>, dirty: nat -> bool, b: int, m: int, e: int)
    requires CoversSelected(rs, dirty, b, m) && UpTo(rs, m) && b <= m <= e
    requires forall x :: m <= x < e ==> !Selected(dirty, x)
    ensures CoversSelected(rs, dirty, b, e) && UpTo(rs, e)
  {
  }

  function Max(a: int, b: int): int { if a < b then b else a }

  /** The most entries on a stack of capacity c after n areas were pushed onto s entries. */
  function Bound(s: int, c: nat, n: nat): int { Max(s, 3 * c / 4 + 1) + 2 * n }

  /**
   * The entry pushed onto k others is the part of a selected page that lies in the area; or, from a whole page on, all
   * the rest of the area, if the stack is more than three quarters full.
   */
  predicate PieceOk(rg: Range, k: nat, capacity: nat, dirty: nat -> bool, bottom: nat, top: nat) {
    0 <= rg.start
    && var p := rg.start / PAGE;
       && dirty(p) && (rg.start == bottom || rg.start == p * PAGE)
       && rg.end == (if bottom / PAGE < p && (p + 1) * PAGE <= top && k - 1 > 3 * capacity / 4 then top
                     else if top <= (p + 1) * PAGE then top else (p + 1) * PAGE)
  }

  /** All entries from n on. */
  ghost predicate PiecesOk(stack: seq<Range>, n: nat, capacity: nat, dirty: nat -> bool, bottom: nat, top: nat) {
    forall k: nat :: n <= k < |stack| ==> PieceOk(stack[k], k, capacity, dirty, bottom, top)
  }

  lemma AddOk(stack: seq<Range>, n: nat, capacity: nat, dirty: nat -> bool, bottom: nat, top: nat, m: nat, e: nat, h: nat)
    requires PiecesOk(stack, n, capacity, dirty, bottom, top) && dirty(h) && (m == bottom || m == h * PAGE) && h * PAGE <= m < (h + 1) * PAGE
    requires e == (if bottom / PAGE < h && (h + 1) * PAGE <= top && |stack| - 1 > 3 * capacity / 4 then top
                   else if top <= (h + 1) * PAGE then top else (h + 1) * PAGE)
    ensures PiecesOk(stack + [Range(m, e)], n, capacity, dirty, bottom, top)
  {
    PageBetween(h, m);
    hide PieceOk;
    assert PieceOk(Range(m, e), |stack|, capacity, dirty, bottom, top) by { AddedOk(Range(m, e), |stack|, capacity, dirty, bottom, top, h); }
  }

  lemma AddedOk(rg: Range, k: nat, capacity: nat, dirty: nat -> bool, bottom: nat, top: nat, h: nat)
    requires 0 <= rg.start && rg.start / PAGE == h && dirty(h) && (rg.start == bottom || rg.start == h * PAGE)
    requires rg.end == (if bottom / PAGE < h && (h + 1) * PAGE <= top && k - 1 > 3 * capacity / 4 then top
                        else if top <= (h + 1) * PAGE then top else (h + 1) * PAGE)
    ensures PieceOk(rg, k, capacity, dirty, bottom, top)
  {
  }

  class RootPusher {
    const capacity: nat        // GC_mark_stack_size
    var stack: seq<Range>      // GC_mark_stack, of which only the entries for root areas matter here
    var aborted: bool

    constructor (capacity: nat, stack: seq<Range>)
      requires |stack| <= capacity
      ensures this.capacity == capacity && this.stack == stack && !aborted
    {
      this.capacity, this.stack, aborted := capacity, stack, false;
    }

    /** GC_push_all. */
    method PushAll(b: int, e: int)
      requires b < e && !aborted && |stack| <= capacity
      modifies this`stack, this`aborted
      ensures aborted <==> |old(stack)| == capacity
      ensures stack == if aborted then old(stack) else old(stack) + [Range(b, e)]
      ensures |stack| <= capacity
    {
      if |stack| == capacity { aborted := true; return; }
      stack := stack + [Range(b, e)];
    }

    /** What PushSelected has pushed so far. */
    ghost predicate Pushing(old_stack: seq<Range>, dirty: nat -> bool, b: int, m: int)
      reads this
    {
      && old_stack <= stack && |stack| <= capacity && !aborted
      && CoversSelected(stack[|old_stack|..], dirty, b, m) && UpTo(stack[|old_stack|..], m)
    }

    /** The piece from m up to e is pushed if its page, h, is selected. */
    method PushPiece(m: int, e: int, h: nat, ghost before: seq<Range>, dirty: nat -> bool, ghost b: int)
      requires Pushing(before, dirty, b, m) && b <= m < e && h * PAGE <= m && e <= (h + 1) * PAGE
      modifies this`stack, this`aborted
      ensures !aborted ==> Pushing(before, dirty, b, e)
      ensures aborted <==> dirty(h) && |old(stack)| == capacity
      ensures stack == if dirty(h) && !aborted then old(stack) + [Range(m, e)] else old(stack)
    {
      ghost var rs := stack[|before|..];
      if dirty(h) {
        PushAll(m, e);
        if !aborted {
          AddPiece(rs, dirty, b, m, e);
          assert stack[|before|..] == rs + [Range(m, e)];
        }
      } else {
        forall x | m <= x < e ensures !Selected(dirty, x) {
          PageNotNegative(h);
          PageBetween(h, x);
        }
        SkipPiece(rs, dirty, b, m, e);
      }
    }

    /**
     * GC_push_selected: every selected page between bottom and top is pushed, in ascending order and once.  When
     * the stack is three quarters full the rest is pushed as one entry; so an area adds at most two entries to
     * a stack that is fuller than that.
     */
    method PushSelected(bottom: nat, top: nat, dirty: nat -> bool)
      requires bottom < top && !aborted && |stack| <= capacity
      modifies this`stack, this`aborted
      ensures !aborted ==> old(stack) <= stack && |stack| <= capacity
      ensures !aborted ==> CoversSelected(stack[|old(stack)|..], dirty, bottom, top) && Ascending(stack[|old(stack)|..])
      ensures |stack| <= Bound(|old(stack)|, capacity, 1)
      ensures aborted ==> capacity < Bound(|old(stack)|, capacity, 1)
      ensures PiecesOk(stack, |old(stack)|, capacity, dirty, bottom, top)
    {
      ghost var before := stack;
      ghost var n := |before|;
      assert stack[|before|..] == [];
      var h: nat := bottom / PAGE + 1;
      PageStart(bottom);
      hide PiecesOk;
      assert PiecesOk(stack, n, capacity, dirty, bottom, top) by { NoPieces(stack, capacity, dirty, bottom, top); }
      if dirty(h - 1) { AddOk(stack, n, capacity, dirty, bottom, top, bottom, if top <= h * PAGE then top else h * PAGE, h - 1); }
      if top <= h * PAGE {
        PushPiece(bottom, top, h - 1, before, dirty, bottom);
        return;
      }
      PushPiece(bottom, h * PAGE, h - 1, before, dirty, bottom);
      if aborted { return; }
      hide CoversSelected, UpTo;
      PushPages(h, bottom, top, dirty, before);
    }

    /** The loop over whole pages, and the rest of the area behind them. */
    method PushPages(first: nat, bottom: nat, top: nat, dirty: nat -> bool, ghost before: seq<Range>)
      requires bottom / PAGE < first && Pushing(before, dirty, bottom, first * PAGE) && bottom <= first * PAGE <= top
      requires |stack| <= |before| + 1 && PiecesOk(stack, |before|, capacity, dirty, bottom, top)
      modifies this`stack, this`aborted
      ensures !aborted ==> before <= stack && |stack| <= capacity
      ensures !aborted ==> CoversSelected(stack[|before|..], dirty, bottom, top) && Ascending(stack[|before|..])
      ensures |stack| <= Bound(|before|, capacity, 1)
      ensures aborted ==> capacity < Bound(|before|, capacity, 1)
      ensures PiecesOk(stack, |before|, capacity, dirty, bottom, top)
    {
      hide CoversSelected, UpTo, PiecesOk, Ascending;
      ghost var n := |before|;
      var h := first;
      while (h + 1) * PAGE <= top
        invariant Pushing(before, dirty, bottom, h * PAGE) && bottom <= h * PAGE <= top
        invariant |stack| <= Max(|before| + 1, 3 * capacity / 4 + 2) && bottom / PAGE < h
        invariant PiecesOk(stack, n, capacity, dirty, bottom, top)
        decreases top - h * PAGE
      {
        NextPage(h);
        if dirty(h) {
          AddOk(stack, n, capacity, dirty, bottom, top, h * PAGE, if |stack| - 1 > 3 * capacity / 4 then top else (h + 1) * PAGE, h);
        }
        if dirty(h) && |stack| - 1 > 3 * capacity / 4 {
          ghost var rs := stack[|before|..];
          PushAll(h * PAGE, top);
          if !aborted {
            AddPiece(rs, dirty, bottom, h * PAGE, top);
            assert stack[|before|..] == rs + [Range(h * PAGE, top)];
            CoversAscending(stack[|before|..], top);
          }
          return;
        }
        PushPiece(h * PAGE, (h + 1) * PAGE, h, before, dirty, bottom);
        if aborted { return; }
        h := h + 1;
      }
      NextPage(h);
      if h * PAGE != top {
        if dirty(h) { AddOk(stack, n, capacity, dirty, bottom, top, h * PAGE, top, h); }
        PushPiece(h * PAGE, top, h, before, dirty, bottom);
        if aborted { return; }
      }
      CoversAscending(stack[|before|..], top);
    }

    static lemma NoPieces(stack: seq<Range>, capacity: nat, dirty: nat -> bool, bottom: nat, top: nat)
      ensures PiecesOk(stack, |stack|, capacity, dirty, bottom, top)
    {
    }

    static lemma CoversAscending(rs: seq<Range>, e: int)
      requires UpTo(rs, e)
      ensures Ascending(rs)
    {
    }

    static lemma PageNotNegative(h: nat)
      ensures 0 <= h * PAGE
    {
    }

    static lemma NextPage(h: nat)
      ensures (h + 1) * PAGE == h * PAGE + PAGE && 0 <= h * PAGE
    {
    }

    /** The root areas in turn. */
    method PushAreas(areas: seq<Range>, dirty: nat -> bool) returns (ghost ends: seq<nat>)
      requires !aborted && |stack| <= capacity && forall k :: 0 <= k < |areas| ==> 0 <= areas[k].start < areas[k].end
      modifies this`stack, this`aborted
      ensures Bound(|old(stack)|, capacity, |areas|) <= capacity ==> !aborted
      ensures !aborted ==> |stack| <= Bound(|old(stack)|, capacity, |areas|)
      ensures !aborted ==> old(stack) <= stack && forall x :: InSome(areas, x) && Selected(dirty, x) ==> InSome(stack, x)
      ensures !aborted ==> forall x :: InSome(stack, x) ==> InSome(old(stack), x) || InSome(areas, x)
      ensures !aborted ==> AreasPushed(stack, |old(stack)|, ends, areas, capacity, dirty)
    {
      ghost var before := stack;
      var k := 0;
      ends := [];
      AreasStart(stack, capacity, dirty);
      hide AreasPushed;
      while k < |areas|
        invariant 0 <= k <= |areas| && !aborted && before <= stack && |stack| <= capacity
        invariant AreasPushed(stack, |before|, ends, areas[..k], capacity, dirty)
        invariant |stack| <= Bound(|before|, capacity, k)
        invariant forall x :: InSome(areas[..k], x) && Selected(dirty, x) ==> InSome(stack, x)
        invariant forall x :: InSome(stack, x) ==> InSome(before, x) || InSome(areas[..k], x)
      {
        ghost var s := stack;
        PushSelected(areas[k].start, areas[k].end, dirty);
        if aborted { return; }
        AreaDone(s, stack, before, areas, k, dirty);
        AreasNext(s, stack, |before|, ends, areas[..k], areas[k], capacity, dirty);
        assert areas[..k + 1] == areas[..k] + [areas[k]];
        k, ends := k + 1, ends + [|stack|];
      }
      assert areas[..k] == areas;
    }
  }

  lemma InSomeJoin(s: seq<Range>, t: seq<Range>, x: int)
    requires s <= t
    ensures InSome(t, x) <==> InSome(s, x) || InSome(t[|s|..], x)
  {
    if InSome(t, x) {
      var k :| 0 <= k < |t| && In(t[k], x);
      if k < |s| { assert In(s[k], x); } else { assert In(t[|s|..][k - |s|], x); }
    }
    if InSome(s, x) { var k :| 0 <= k < |s| && In(s[k], x); assert In(t[k], x); }
    if InSome(t[|s|..], x) { var k :| 0 <= k < |t[|s|..]| && In(t[|s|..][k], x); assert In(t[|s| + k], x); }
  }

  /**
   * From n on, the entries of the stack up to ends[0] were pushed for the first area, those up to ends[1] for the second,
   * and so on: those of each area cover its selected pages once, in ascending order.
   */
  ghost predicate AreasPushed(stack: seq<Range>, n: nat, ends: seq<nat>, areas: seq<Range>, capacity: nat, dirty: nat -> bool) {
    && |ends| == |areas| && |stack| == (if ends == [] then n else ends[|ends| - 1])
    && forall k: nat :: k < |ends| ==> AreaPushed(stack, StartOf(n, ends, k), ends[k], areas[k], capacity, dirty)
  }

  ghost function StartOf(n: nat, ends: seq<nat>, k: nat): nat
    requires k <= |ends|
  {
    if k == 0 then n else ends[k - 1]
  }

  ghost predicate AreaPushed(stack: seq<Range>, from: nat, to: nat, area: Range, capacity: nat, dirty: nat -> bool) {
    && from <= to <= |stack| && 0 <= area.start < area.end
    && CoversSelected(stack[from..to], dirty, area.start, area.end) && Ascending(stack[from..to])
    && PiecesOk(stack[..to], from, capacity, dirty, area.start, area.end)
  }

  lemma AreasStart(stack: seq<Range>, capacity: nat, dirty: nat -> bool)
    ensures AreasPushed(stack, |stack|, [], [], capacity, dirty)
  {
  }

  lemma AreasNext(s: seq<Range>, t: seq<Range>, n: nat, ends: seq<nat>, areas: seq<Range>, area: Range, capacity: nat, dirty: nat -> bool)
    requires AreasPushed(s, n, ends, areas, capacity, dirty) && s <= t && 0 <= area.start < area.end
    requires CoversSelected(t[|s|..], dirty, area.start, area.end) && Ascending(t[|s|..])
    requires PiecesOk(t, |s|, capacity, dirty, area.start, area.end)
    ensures AreasPushed(t, n, ends + [|t|], areas + [area], capacity, dirty)
  {
    hide CoversSelected, PiecesOk, Ascending;
    assert t[..|t|] == t && t[|s|..|t|] == t[|s|..];
    var ends', areas' := ends + [|t|], areas + [area];
    forall k: nat | k < |ends'| ensures AreaPushed(t, StartOf(n, ends', k), ends'[k], areas'[k], capacity, dirty) {
      var from := StartOf(n, ends', k);
      if k < |ends| {
        assert from == StartOf(n, ends, k) && AreaPushed(s, from, ends[k], areas[k], capacity, dirty);
        assert t[from..ends[k]] == s[from..ends[k]] && t[..ends[k]] == s[..ends[k]];
      }
    }
  }

  lemma AreaDone(s: seq<Range>, t: seq<Range>, before: seq<Range>, areas: seq<Range>, k: nat, dirty: nat -> bool)
    requires s <= t && k < |areas| && CoversSelected(t[|s|..], dirty, areas[k].start, areas[k].end)
    requires forall x :: InSome(areas[..k], x) && Selected(dirty, x) ==> InSome(s, x)
    requires forall x :: InSome(s, x) ==> InSome(before, x) || InSome(areas[..k], x)
    ensures forall x :: InSome(areas[..k + 1], x) && Selected(dirty, x) ==> InSome(t, x)
    ensures forall x :: InSome(t, x) ==> InSome(before, x) || InSome(areas[..k + 1], x)
  {
    forall x ensures InSome(areas[..k + 1], x) <==> InSome(areas[..k], x) || In(areas[k], x) {
      InSomeJoin(areas[..k], areas[..k + 1], x);
      assert areas[..k + 1][k..] == [areas[k]];
      assert InSome([areas[k]], x) <==> In(areas[k], x) by { if In(areas[k], x) { assert In([areas[k]][0], x); } }
    }
    forall x ensures InSome(t, x) <==> InSome(s, x) || InSome(t[|s|..], x) { InSomeJoin(s, t, x); }
  }

  /**
   * While dirty pages are rescanned, GC_mark_some pushes the roots only when the stack has
   * INITIAL_MARK_STACK_SIZE / 2 free entries.  Then GC_push_all does not abort as long as there are fewer
   * root areas than an eighth of the initial mark stack.
   */
  lemma SelectedRootsFit(s: State, areas: nat)
    requires INITIAL_MARK_STACK_SIZE <= s.capacity && !(s.capacity - INITIAL_MARK_STACK_SIZE / 2 <= |s.stack| - 1)
    requires areas < INITIAL_MARK_STACK_SIZE / 8
    ensures Bound(|s.stack|, s.capacity, areas) <= s.capacity
  {
    var i := INITIAL_MARK_STACK_SIZE / 8;
    assert 8 * i <= INITIAL_MARK_STACK_SIZE <= s.capacity;
    assert 3 * s.capacity / 4 + 1 + 2 * areas <= s.capacity;
    assert |s.stack| + 2 * areas <= s.capacity;
  }

  /** Every page outside the heap counts as dirty (libs/gc/os_dep.c:2628): such an area is pushed as a whole. */
  lemma AllSelected(rs: seq<Range>, dirty: nat -> bool, b: int, e: int)
    requires CoversSelected(rs, dirty, b, e) && 0 <= b && forall h :: dirty(h)
    ensures forall x :: InSome(rs, x) <==> b <= x < e
  {
  }
}
