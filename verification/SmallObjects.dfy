/**
Small objects: how a block is cut into a free list (libs/gc/new_hblk.c:25-167), and what allocation
from the lists and freeing keep (libs/gc/malloc.c:103-134, 466-513; libs/gc/mallocx.c:371-416).
Addresses and sizes are counted in words; the first word of a free object is its link.
 */
module SmallObjects {
  import opened Arithmetic

  type BlockWords = n: nat | 0 < n && n % 8 == 0 witness 8

  /** HBLKSIZE in words. */
  const BW: BlockWords

  type Addr = nat
  type Words = seq<nat>

  /** The object that starts d words into a block of objects of sz words. */
  predicate StartsAt(d: int, sz: nat) { 0 < sz && 0 <= d && d % sz == 0 && d + sz <= BW }

  /** What the word a of block h holds once the block is a free list that ends in list. */
  function Cell(h: Addr, sz: nat, clear: bool, list: Addr, a: Addr, was: nat): int {
    if StartsAt(a - h, sz) then (if a == h then list else a - sz) else if clear then 0 else was
  }

  /** The words from h up to the word p of the block have been made part of the list; clear has cleared those behind already if ahead. */
  ghost predicate BuiltTo(m: Words, t: Words, h: Addr, sz: nat, clear: bool, list: Addr, p: nat) {
    && |t| == |m| && h + BW <= |m| && h <= p
    && (forall a :: h <= a < h + BW && a < p ==> t[a] == Cell(h, sz, clear, list, a, m[a]))
    && (forall a :: 0 <= a < |m| && !(h <= a < h + BW && a < p) ==> t[a] == m[a])
  }

  /** The block at h has become a free list that ends in list, and nothing else has changed. */
  ghost predicate Built(m: Words, t: Words, h: Addr, sz: nat, clear: bool, list: Addr) {
    BuiltTo(m, t, h, sz, clear, list, h + BW)
  }

  /** The words from p up to q are made part of the list. */
  ghost predicate BuiltPart(m: Words, t: Words, u: Words, h: Addr, sz: nat, clear: bool, list: Addr, p: nat, q: nat) {
    && |u| == |t| == |m| && h <= p <= q <= h + BW <= |m|
    && (forall a :: p <= a < q ==> u[a] == Cell(h, sz, clear, list, a, m[a]))
    && (forall a :: 0 <= a < |m| && !(p <= a < q) ==> u[a] == t[a])
  }

  lemma BuiltStep(m: Words, t: Words, u: Words, h: Addr, sz: nat, clear: bool, list: Addr, p: nat, q: nat)
    requires BuiltTo(m, t, h, sz, clear, list, p)
    requires h + BW <= |m| && BuiltPart(m, t, u, h, sz, clear, list, p, q)
    ensures BuiltTo(m, u, h, sz, clear, list, q)
  {
    hide Cell;
  }

  lemma BuiltNothing(m: Words, h: Addr, sz: nat, clear: bool, list: Addr)
    requires h + BW <= |m|
    ensures BuiltTo(m, m, h, sz, clear, list, h)
  {
  }

  /** The last object of a block, which is the head of its free list. */
  function LastObject(h: Addr, sz: nat): Addr
    requires 0 < sz <= BW
  {
    LastFits(sz);
    h + (BW / sz - 1) * sz
  }

  lemma LastFits(sz: nat)
    requires 0 < sz <= BW
    ensures 0 <= (BW / sz - 1) * sz && BW / sz * sz <= BW < BW / sz * sz + sz
  {
    var n := BW / sz;
    assert BW == n * sz + BW % sz;
    if n < 1 { MulMono(n, 0, sz); }
    MulMono(0, n - 1, sz);
  }

  /** The free list of a new block does not depend on which builder made it. */
  lemma BuiltUnique(m: Words, t: Words, u: Words, h: Addr, sz: nat, clear: bool, list: Addr)
    requires Built(m, t, h, sz, clear, list) && Built(m, u, h, sz, clear, list)
    ensures t == u
  {
  }

  lemma NextStart(d: nat, k: nat, sz: nat)
    requires 0 < sz && d % sz == 0 && 0 < k < sz
    ensures (d + k) % sz != 0 && (d + sz) % sz == 0
  {
    SameGroup(d, k, sz);
    DivModUnique(d + sz, sz, d / sz + 1, 0);
  }

  /** The groups of step words that a specialised builder writes at once do not cross the end of the block. */
  lemma Group(h: Addr, i: nat, step: nat)
    requires step == 4 || step == 8
    ensures h + step * i < h + BW ==> h + step * i + step <= h + BW
  {
    Eights();
    if step == 4 { assert step * i == 4 * i; } else { assert step * i == 8 * i; }
  }

  lemma Eights()
    ensures BW == 8 * (BW / 8)
  {
  }

  /** Where objects of two or four words start in the group from p on. */
  lemma StartInGroup(h: Addr, i: nat, step: nat, sz: nat, k: nat)
    requires (step == 4 || step == 8) && (sz == 2 || sz == 4) && k < step && step * i + step <= BW
    ensures StartsAt(step * i + k, sz) <==> k == 0 || k == 4 || (sz == 2 && (k == 2 || k == 6))
  {
    var x := step * i;
    if step == 4 { DivModUnique(x, 4, i, 0); } else { DivModUnique(x, 4, 2 * i, 0); }
    hide StartsAt;
    StartAfter(x, k, sz);
    FitsGroup(x, step, sz, k);
  }

  lemma FitsGroup(x: nat, step: nat, sz: nat, k: nat)
    requires (step == 4 || step == 8) && (sz == 2 || sz == 4) && k < step && x + step <= BW
    requires (x + k) % sz == 0 <==> k == 0 || k == 4 || (sz == 2 && (k == 2 || k == 6))
    ensures StartsAt(x + k, sz) <==> k == 0 || k == 4 || (sz == 2 && (k == 2 || k == 6))
  {
  }

  lemma StartAfter(x: nat, k: nat, sz: nat)
    requires x % 4 == 0 && k < 8 && (sz == 2 || sz == 4)
    ensures (x + k) % sz == 0 <==> k == 0 || k == 4 || (sz == 2 && (k == 2 || k == 6))
  {
    var q := x / 4;
    if sz == 2 {
      DivModUnique(x + k, 2, 2 * q + k / 2, k % 2);
    } else {
      DivModUnique(x + k, 4, q + k / 4, k % 4);
    }
  }

  predicate GroupStart(sz: nat, k: int) { k == 0 || k == 4 || (sz == 2 && (k == 2 || k == 6)) }

  lemma GroupCells(h: Addr, i: nat, step: nat, sz: nat, clear: bool, list: Addr)
    requires (step == 4 || step == 8) && (sz == 2 || sz == 4) && step * i + step <= BW
    ensures forall a: nat, was: nat {:trigger Cell(h, sz, clear, list, a, was)} :: h + step * i <= a < h + step * i + step ==>
      Cell(h, sz, clear, list, a, was) ==
        if GroupStart(sz, a - h - step * i) then (if a == h then list else a - sz) else if clear then 0 else was
  {
    forall a: nat, was: nat | h + step * i <= a < h + step * i + step
      ensures Cell(h, sz, clear, list, a, was) ==
        if GroupStart(sz, a - h - step * i) then (if a == h then list else a - sz) else if clear then 0 else was
    {
      StartInGroup(h, i, step, sz, a - h - step * i);
    }
  }

  /** What a group from p on is to hold if its first object is linked to first. */
  function Wanted(p: nat, sz: nat, clear: bool, first: int, a: nat, was: nat): int {
    if a == p then first else if GroupStart(sz, a - p) then a - sz else if clear then 0 else was
  }

  /** The group from p on has been written, and nothing else. */
  ghost predicate GroupIs(m: Words, t: Words, u: Words, p: nat, step: nat, sz: nat, clear: bool, first: int) {
    && |u| == |t| == |m| && p + step <= |m|
    && (forall a :: p <= a < p + step ==> u[a] == Wanted(p, sz, clear, first, a, m[a]))
    && (forall a :: 0 <= a < |m| && !(p <= a < p + step) ==> u[a] == t[a])
  }

  lemma StillThere(m: Words, t: Words, h: Addr, sz: nat, clear: bool, list: Addr, p: nat)
    requires BuiltTo(m, t, h, sz, clear, list, p)
    ensures |t| == |m| && forall a :: p <= a < |m| ==> t[a] == m[a]
  {
    hide Cell;
  }

  /** Four words of cleared objects have been written. */
  lemma Written4(m: Words, t: Words, u: Words, h: Addr, sz: nat, list: Addr, p: nat)
    requires (sz == 2 || sz == 4) && sz <= p && p + 4 <= |t| && BuiltTo(m, t, h, sz, true, list, p)
    requires var back: nat := p - sz; u == t[p := back][p + 1 := 0][p + 2 := if sz == 2 then p else 0][p + 3 := 0]
    ensures GroupIs(m, t, u, p, 4, sz, true, p - sz)
  {
    StillThere(m, t, h, sz, true, list, p);
    hide BuiltTo;
  }

  /** The links of two objects have been written. */
  lemma Written2(m: Words, t: Words, u: Words, h: Addr, sz: nat, list: Addr, p: nat)
    requires (sz == 2 || sz == 4) && sz <= p && p + 2 * sz <= |t| && BuiltTo(m, t, h, sz, false, list, p)
    requires var back: nat := p - sz; u == t[p := back][p + sz := p]
    ensures GroupIs(m, t, u, p, 2 * sz, sz, false, p - sz)
  {
    StillThere(m, t, h, sz, false, list, p);
    hide BuiltTo;
  }

  lemma GroupBuilt(m: Words, t: Words, u: Words, h: Addr, i: nat, step: nat, sz: nat, clear: bool, list: Addr)
    requires (step == 4 || step == 8) && (sz == 2 || sz == 4) && step * i + step <= BW && h + BW <= |m|
    requires BuiltTo(m, t, h, sz, clear, list, h + step * i)
    requires GroupIs(m, t, u, h + step * i, step, sz, clear, if i == 0 then list else h + step * i - sz)
    ensures BuiltTo(m, u, h, sz, clear, list, h + step * i + step)
  {
    var p := h + step * i;
    GroupCells(h, i, step, sz, clear, list);
    assert i != 0 ==> p != h by { if i != 0 { MulMono(1, i, step); } }
    hide Cell;
    assert forall a :: p <= a < p + step ==> u[a] == Cell(h, sz, clear, list, a, m[a]);
    hide GroupStart, Wanted, BuiltTo;
    BuiltStep(m, t, u, h, sz, clear, list, p, p + step);
  }

  lemma LastIs(h: Addr, sz: nat)
    requires sz == 2 || sz == 4
    ensures sz <= BW && LastObject(h, sz) == h + BW - sz
  {
    Eights();
    var c := BW / 8;
    DivModUnique(BW, sz, if sz == 2 then 4 * c else 2 * c, 0);
  }

  class Heap {
    const mem: array<nat>

    constructor (words: nat)
      ensures mem.Length == words && fresh(mem)
    {
      mem := new nat[words](_ => 0);
    }

    /** p[0], p[1], p[2] and p[3] are set. */
    method Store4(p: Addr, w0: nat, w1: nat, w2: nat, w3: nat)
      requires p + 4 <= mem.Length
      modifies mem
      ensures mem[..] == old(mem[..])[p := w0][p + 1 := w1][p + 2 := w2][p + 3 := w3]
    {
      mem[p], mem[p + 1], mem[p + 2], mem[p + 3] := w0, w1, w2, w3;
    }

    /** p[0] and p[d] are set. */
    method Store2(p: Addr, w: nat, d: nat, v: nat)
      requires 0 < d && p + d < mem.Length
      modifies mem
      ensures mem[..] == old(mem[..])[p := w][p + d := v]
    {
      mem[p], mem[p + d] := w, v;
    }

    method BuildFlClear2(h: Addr, ofl: Addr) returns (head: Addr)
      requires h + BW <= mem.Length
      modifies mem
      ensures Built(old(mem[..]), mem[..], h, 2, true, ofl) && head == LastObject(h, 2)
    {
      ghost var m, i := mem[..], 1;
      var p, lim := h, h + BW;
      BuiltNothing(m, h, 2, true, ofl);
      Group(h, 0, 4);
      Store4(p, ofl, 0, p, 0);
      GroupBuilt(m, m, mem[..], h, 0, 4, 2, true, ofl);
      p := p + 4;
      hide BuiltTo, GroupStart, Wanted;
      while p < lim
        invariant p == h + 4 * i && 1 <= i && p <= lim
        invariant BuiltTo(m, mem[..], h, 2, true, ofl, p)
        decreases lim - p
      {
        ghost var t := mem[..];
        Group(h, i, 4);
        Store4(p, p - 2, 0, p, 0);
        Written4(m, t, mem[..], h, 2, ofl, p);
        GroupBuilt(m, t, mem[..], h, i, 4, 2, true, ofl);
        p, i := p + 4, i + 1;
      }
      LastIs(h, 2);
      hide LastObject;
      return p - 2;
    }

    method BuildFlClear4(h: Addr, ofl: Addr) returns (head: Addr)
      requires h + BW <= mem.Length
      modifies mem
      ensures Built(old(mem[..]), mem[..], h, 4, true, ofl) && head == LastObject(h, 4)
    {
      ghost var m, i := mem[..], 1;
      var p, lim := h, h + BW;
      BuiltNothing(m, h, 4, true, ofl);
      Group(h, 0, 4);
      Store4(p, ofl, 0, 0, 0);
      GroupBuilt(m, m, mem[..], h, 0, 4, 4, true, ofl);
      p := p + 4;
      hide BuiltTo, GroupStart, Wanted;
      while p < lim
        invariant p == h + 4 * i && 1 <= i && p <= lim
        invariant BuiltTo(m, mem[..], h, 4, true, ofl, p)
        decreases lim - p
      {
        ghost var t := mem[..];
        Group(h, i, 4);
        Store4(p, p - 4, 0, 0, 0);
        Written4(m, t, mem[..], h, 4, ofl, p);
        GroupBuilt(m, t, mem[..], h, i, 4, 4, true, ofl);
        p, i := p + 4, i + 1;
      }
      LastIs(h, 4);
      hide LastObject;
      return p - 4;
    }

    method BuildFl2(h: Addr, ofl: Addr) returns (head: Addr)
      requires h + BW <= mem.Length
      modifies mem
      ensures Built(old(mem[..]), mem[..], h, 2, false, ofl) && head == LastObject(h, 2)
    {
      ghost var m, i := mem[..], 1;
      var p, lim := h, h + BW;
      BuiltNothing(m, h, 2, false, ofl);
      Group(h, 0, 4);
      Store2(p, ofl, 2, p);
      GroupBuilt(m, m, mem[..], h, 0, 4, 2, false, ofl);
      p := p + 4;
      hide BuiltTo, GroupStart, Wanted;
      while p < lim
        invariant p == h + 4 * i && 1 <= i && p <= lim
        invariant BuiltTo(m, mem[..], h, 2, false, ofl, p)
        decreases lim - p
      {
        ghost var t := mem[..];
        Group(h, i, 4);
        Store2(p, p - 2, 2, p);
        Written2(m, t, mem[..], h, 2, ofl, p);
        GroupBuilt(m, t, mem[..], h, i, 4, 2, false, ofl);
        p, i := p + 4, i + 1;
      }
      LastIs(h, 2);
      hide LastObject;
      return p - 2;
    }

    method BuildFl4(h: Addr, ofl: Addr) returns (head: Addr)
      requires h + BW <= mem.Length
      modifies mem
      ensures Built(old(mem[..]), mem[..], h, 4, false, ofl) && head == LastObject(h, 4)
    {
      ghost var m, i := mem[..], 1;
      var p, lim := h, h + BW;
      BuiltNothing(m, h, 4, false, ofl);
      Group(h, 0, 8);
      Store2(p, ofl, 4, p);
      GroupBuilt(m, m, mem[..], h, 0, 8, 4, false, ofl);
      p := p + 8;
      hide BuiltTo, GroupStart, Wanted;
      while p < lim
        invariant p == h + 8 * i && 1 <= i && p <= lim
        invariant BuiltTo(m, mem[..], h, 4, false, ofl, p)
        decreases lim - p
      {
        ghost var t := mem[..];
        Group(h, i, 8);
        Store2(p, p - 4, 4, p);
        Written2(m, t, mem[..], h, 4, ofl, p);
        GroupBuilt(m, t, mem[..], h, i, 8, 4, false, ofl);
        p, i := p + 8, i + 1;
      }
      LastIs(h, 4);
      hide LastObject;
      return p - 4;
    }

    /** BZERO of a block. */
    method ClearBlock(h: Addr)
      requires h + BW <= mem.Length
      modifies mem
      ensures mem[..] == Cleared(old(mem[..]), h)
    {
      for a := h to h + BW
        invariant forall k :: 0 <= k < mem.Length ==> mem[k] == if h <= k < a then 0 else old(mem[k])
      {
        mem[a] := 0;
      }
    }

    /** GC_build_fl; the specialised builders yield what the general loop yields. */
    method BuildFl(h: Addr, sz: nat, clear: bool, list: Addr) returns (head: Addr)
      requires h + BW <= mem.Length && 0 < sz <= BW
      modifies mem
      ensures Built(old(mem[..]), mem[..], h, sz, clear, list) && head == LastObject(h, sz)
    {
      if sz == 2 {
        if clear { head := BuildFlClear2(h, list); } else { head := BuildFl2(h, list); }
      } else if sz == 4 {
        if clear { head := BuildFlClear4(h, list); } else { head := BuildFl4(h, list); }
      } else {
        ghost var m := mem[..];
        if clear { ClearBlock(h); }
        ghost var c := mem[..];
        head := LinkObjects(h, sz, list);
        BuiltCleared(m, c, mem[..], h, sz, clear, list);
      }
    }

    /** The general loop: the first object is linked last. */
    method LinkObjects(h: Addr, sz: nat, list: Addr) returns (head: Addr)
      requires h + BW <= mem.Length && 0 < sz <= BW
      modifies mem
      ensures Built(old(mem[..]), mem[..], h, sz, false, list) && head == LastObject(h, sz)
    {
      ghost var m, i := mem[..], 1;
      var p: nat, prev: nat, lastObject: nat := h + sz, h, h + BW - sz;
      FirstObject(m, h, sz, list);
      hide BuiltTo;
      while p <= lastObject
        invariant p == h + i * sz && prev == p - sz && 1 <= i && i * sz <= BW && mem.Length == |m|
        invariant BuiltTo(m, mem[..][h := list], h, sz, false, list, p)
        decreases h + BW - p
      {
        ghost var t := mem[..];
        mem[p] := prev;
        assert mem[..] == t[p := prev];
        assert (i + 1) * sz == i * sz + sz;
        LinkOne(m, t, h, sz, list, i, p, prev);
        prev := p;
        p, i := p + sz, i + 1;
      }
      p := p - sz;
      ghost var t := mem[..];
      mem[h] := list;
      assert mem[..] == t[h := list];
      NoMoreObjects(m, mem[..], h, sz, list, i, p + sz);
      return p;
    }
  }

  function Cleared(m: Words, h: Addr): Words
    requires h + BW <= |m|
  {
    seq(|m|, a requires 0 <= a < |m| => if h <= a < h + BW then 0 else m[a])
  }

  lemma BuiltCleared(m: Words, c: Words, t: Words, h: Addr, sz: nat, clear: bool, list: Addr)
    requires h + BW <= |m| && c == (if clear then Cleared(m, h) else m) && Built(c, t, h, sz, false, list)
    ensures Built(m, t, h, sz, clear, list)
  {
  }

  /** In the words from the object i on up to the next only the first is a link. */
  lemma NextCells(h: Addr, i: nat, sz: nat, list: Addr)
    requires 0 < sz && i * sz + sz <= BW
    ensures forall a: nat, was: nat {:trigger Cell(h, sz, false, list, a, was)} :: h + i * sz <= a < h + i * sz + sz ==>
      Cell(h, sz, false, list, a, was) == if a == h + i * sz then (if a == h then list else a - sz) else was
  {
    DivModUnique(i * sz, sz, i, 0);
    forall a: nat, was: nat | h + i * sz <= a < h + i * sz + sz
      ensures Cell(h, sz, false, list, a, was) == if a == h + i * sz then (if a == h then list else a - sz) else was
    {
      if a != h + i * sz { NextStart(i * sz, a - h - i * sz, sz); }
    }
  }

  lemma FirstObject(m: Words, h: Addr, sz: nat, list: Addr)
    requires h + BW <= |m| && 0 < sz <= BW
    ensures BuiltTo(m, m[h := list], h, sz, false, list, h + sz)
  {
    NextCells(h, 0, sz, list);
    hide Cell;
  }

  lemma LinkOne(m: Words, t: Words, h: Addr, sz: nat, list: Addr, i: nat, p: nat, prev: nat)
    requires h + BW <= |m| == |t| && 0 < sz && 1 <= i && p == h + i * sz && i * sz + sz <= BW
    requires BuiltTo(m, t[h := list], h, sz, false, list, p) && prev == p - sz
    ensures BuiltTo(m, t[p := prev][h := list], h, sz, false, list, p + sz)
  {
    MulMono(1, i, sz);
    NextCells(h, i, sz, list);
    hide Cell;
    var u := t[h := list];
    assert t[p := prev][h := list] == u[p := prev];
    assert BuiltPart(m, u, u[p := prev], h, sz, false, list, p, p + sz);
    hide BuiltTo, BuiltPart;
    BuiltStep(m, u, u[p := prev], h, sz, false, list, p, p + sz);
  }

  lemma NoMoreObjects(m: Words, t: Words, h: Addr, sz: nat, list: Addr, i: nat, p: nat)
    requires h + BW <= |m| == |t| && 0 < sz <= BW && 1 <= i && p == h + i * sz && i * sz <= BW < i * sz + sz
    requires BuiltTo(m, t, h, sz, false, list, p)
    ensures Built(m, t, h, sz, false, list) && p - sz == LastObject(h, sz)
  {
    DivModUnique(BW, sz, i, BW - i * sz);
    BuiltStep(m, t, t, h, sz, false, list, p, h + BW);
  }
}
