/**
The doubly linked free lists of heap blocks, linked through hb_next and hb_prev of the headers
(libs/gc/allchblk.c:33-54, 91-98, 286-385): links as maps from block numbers, 0 for the null pointer.
 */
module FreeLists {
  import opened HeapShape

  const UNIQUE_THRESHOLD: nat := 32
  const HUGE_THRESHOLD: nat := 256
  const FL_COMPRESSION: nat := 8
  const N_HBLK_FLS: nat := (HUGE_THRESHOLD - UNIQUE_THRESHOLD) / FL_COMPRESSION + UNIQUE_THRESHOLD

  /** GC_hblk_fl_from_blocks: the free list for blocks of this size. */
  function FlIndex(blocks: nat): (i: nat)
    ensures i <= N_HBLK_FLS
    ensures blocks <= UNIQUE_THRESHOLD <==> i == blocks && i <= UNIQUE_THRESHOLD
  {
    if blocks <= UNIQUE_THRESHOLD then blocks
    else if HUGE_THRESHOLD <= blocks then N_HBLK_FLS
    else (blocks - UNIQUE_THRESHOLD) / FL_COMPRESSION + UNIQUE_THRESHOLD
  }

  /** Larger blocks are never on an earlier list. */
  lemma FlIndexMonotone(a: nat, b: nat)
    requires a <= b
    ensures FlIndex(a) <= FlIndex(b)
  {
  }

  /**
   * Sizes below UNIQUE_THRESHOLD have lists of their own, the sizes from HUGE_THRESHOLD on have one, and in between
   * FL_COMPRESSION sizes share a list.  The comment on UNIQUE_THRESHOLD gives that size a list of its own, too.
   */
  lemma SameList(a: nat, b: nat)
    requires a < b
    ensures FlIndex(a) == FlIndex(b) <==>
      UNIQUE_THRESHOLD <= a && (HUGE_THRESHOLD <= a || (b < HUGE_THRESHOLD && a / FL_COMPRESSION == b / FL_COMPRESSION))
  {
  }

  type Links = map<nat, nat>

  // ---------- one list ----------

  ghost predicate NoDup(l: seq<nat>) {
    forall j, k :: 0 <= j < k < |l| ==> l[j] != l[k]
  }

  function NextOf(l: seq<nat>, j: nat): nat { if j + 1 < |l| then l[j + 1] else 0 }

  function PrevOf(l: seq<nat>, j: nat): nat { if 0 < j <= |l| then l[j - 1] else 0 }

  ghost predicate LinkedAt(next: Links, prev: Links, l: seq<nat>, j: nat)
    requires j < |l|
  {
    l[j] != 0 && l[j] in next && l[j] in prev && next[l[j]] == NextOf(l, j) && prev[l[j]] == PrevOf(l, j)
  }

  ghost predicate Linked(next: Links, prev: Links, head: nat, l: seq<nat>) {
    && head == (if l == [] then 0 else l[0])
    && NoDup(l)
    && forall j: nat :: j < |l| ==> LinkedAt(next, prev, l, j)
  }

  function RemoveAt(l: seq<nat>, j: nat): seq<nat>
    requires j < |l|
  {
    l[..j] + l[j + 1..]
  }

  lemma RemovedAt(l: seq<nat>, j: nat)
    requires j < |l| && NoDup(l)
    ensures var m := RemoveAt(l, j);
      && (forall k: nat :: k < |m| ==> m[k] == l[if k < j then k else k + 1])
      && NoDup(m) && forall x :: x in m <==> x in l && x != l[j]
  {
    var m := RemoveAt(l, j);
    forall x ensures x in m <==> x in l && x != l[j] {
      if x in l && x != l[j] {
        var k :| 0 <= k < |l| && l[k] == x;
        assert x == m[if k < j then k else k - 1];
      }
    }
  }

  /** Unlinking the j-th block, as GC_remove_from_fl does. */
  lemma Unlink(next: Links, prev: Links, head: nat, l: seq<nat>, j: nat)
    requires Linked(next, prev, head, l) && j < |l| && LinkedAt(next, prev, l, j)
    ensures var h := l[j];
      Linked(if prev[h] == 0 then next else next[prev[h] := next[h]],
             if next[h] == 0 then prev else prev[next[h] := prev[h]],
             if prev[h] == 0 then next[h] else head, RemoveAt(l, j))
  {
    var h, m := l[j], RemoveAt(l, j);
    assert LinkedAt(next, prev, l, j);
    var next' := if prev[h] == 0 then next else next[prev[h] := next[h]];
    var prev' := if next[h] == 0 then prev else prev[next[h] := prev[h]];
    RemovedAt(l, j);
    forall k: nat | k < |m| ensures LinkedAt(next', prev', m, k) {
      var i := if k < j then k else k + 1;
      assert LinkedAt(next, prev, l, i);
      if 0 < j { assert LinkedAt(next, prev, l, j - 1); }
      if j + 1 < |l| { assert LinkedAt(next, prev, l, j + 1); }
    }
    if 0 < j { assert LinkedAt(next, prev, l, j - 1); }
  }

  /** Linking b in front, as GC_add_to_fl does. */
  lemma LinkFront(next: Links, prev: Links, head: nat, l: seq<nat>, b: nat)
    requires Linked(next, prev, head, l) && b != 0 && b !in l
    ensures Linked(next[b := head], if head == 0 then prev[b := 0] else prev[b := 0][head := b], b, [b] + l)
  {
    var next', prev' := next[b := head], if head == 0 then prev[b := 0] else prev[b := 0][head := b];
    var m := [b] + l;
    if l != [] { assert LinkedAt(next, prev, l, 0); }
    forall k: nat | k < |m| ensures LinkedAt(next', prev', m, k) {
      if 0 < k {
        assert m[k] == l[k - 1] && LinkedAt(next, prev, l, k - 1);
        assert l[k - 1] in l;
      }
    }
  }

  /** Putting n in the place of the j-th block, as GC_split_block does. */
  lemma Relink(next: Links, prev: Links, head: nat, l: seq<nat>, j: nat, n: nat)
    requires Linked(next, prev, head, l) && j < |l| && LinkedAt(next, prev, l, j) && n != 0 && n !in l
    ensures var h := l[j];
      var next1, prev1 := next[n := next[h]], prev[n := prev[h]];
      Linked(if prev[h] == 0 then next1 else next1[prev[h] := n],
             if next[h] == 0 then prev1 else prev1[next[h] := n],
             if prev[h] == 0 then n else head, l[j := n])
  {
    var h: nat, m: seq<nat> := l[j], l[j := n];
    assert LinkedAt(next, prev, l, j);
    var next1, prev1 := next[n := next[h]], prev[n := prev[h]];
    var next' := if prev[h] == 0 then next1 else next1[prev[h] := n];
    var prev' := if next[h] == 0 then prev1 else prev1[next[h] := n];
    forall i, k | 0 <= i < k < |m| ensures m[i] != m[k] {
      assert l[i] in l && l[k] in l;
    }
    if 0 < j { assert LinkedAt(next, prev, l, j - 1) && l[j - 1] in l; }
    if j + 1 < |l| { assert LinkedAt(next, prev, l, j + 1) && l[j + 1] in l; }
    forall k: nat | k < |m| ensures LinkedAt(next', prev', m, k) {
      assert LinkedAt(next, prev, l, k) && l[k] in l;
    }
  }

  /** Changes to the links of other blocks do not matter. */
  lemma LinkedFrame(next: Links, prev: Links, next': Links, prev': Links, head: nat, l: seq<nat>)
    requires Linked(next, prev, head, l)
    requires forall x :: x in l ==>
      x in next && x in prev && x in next' && x in prev' && next'[x] == next[x] && prev'[x] == prev[x]
    ensures Linked(next', prev', head, l)
  {
    assert forall j: nat :: j < |l| ==> l[j] in l;
    forall j: nat | j < |l| ensures LinkedAt(next', prev', l, j) {
      assert LinkedAt(next, prev, l, j) && l[j] in l;
    }
  }

  // ---------- sizes ----------

  function SizeOf(s: Shape, b: nat): nat { if b in s then s[b].sz else 0 }

  /** GC_free_bytes of a list, in blocks. */
  ghost function SumSizes(s: Shape, l: seq<nat>): nat {
    if l == [] then 0 else SizeOf(s, l[0]) + SumSizes(s, l[1..])
  }

  lemma {:induction false} SumAppend(s: Shape, l: seq<nat>, m: seq<nat>)
    ensures SumSizes(s, l + m) == SumSizes(s, l) + SumSizes(s, m)
  {
    if l == [] {
      assert l + m == m;
    } else {
      assert (l + m)[1..] == l[1..] + m;
      SumAppend(s, l[1..], m);
    }
  }

  lemma {:induction false} SumSame(s: Shape, t: Shape, l: seq<nat>)
    requires forall b :: b in l ==> SizeOf(t, b) == SizeOf(s, b)
    ensures SumSizes(s, l) == SumSizes(t, l)
  {
    if l != [] { SumSame(s, t, l[1..]); }
  }

  lemma SumRemove(s: Shape, l: seq<nat>, j: nat)
    requires j < |l|
    ensures SumSizes(s, RemoveAt(l, j)) == SumSizes(s, l) - SizeOf(s, l[j])
  {
    assert l == l[..j] + ([l[j]] + l[j + 1..]);
    SumAppend(s, l[..j], [l[j]] + l[j + 1..]);
    SumAppend(s, l[..j], l[j + 1..]);
    assert ([l[j]] + l[j + 1..])[1..] == l[j + 1..];
  }

  lemma SumReplace(s: Shape, l: seq<nat>, j: nat, n: nat)
    requires j < |l|
    ensures SumSizes(s, l[j := n]) == SumSizes(s, l) - SizeOf(s, l[j]) + SizeOf(s, n)
  {
    assert l[j := n] == l[..j] + ([n] + l[j + 1..]);
    SumAppend(s, l[..j], [n] + l[j + 1..]);
    assert ([n] + l[j + 1..])[1..] == l[j + 1..];
    SumRemove(s, l, j);
    SumAppend(s, l[..j], l[j + 1..]);
  }

  ghost function Total(ns: seq<int>): int {
    if ns == [] then 0 else ns[0] + Total(ns[1..])
  }

  /** The sum of the numbers from the index k on. */
  ghost function TotalFrom(ns: seq<int>, k: int): int { if 0 <= k <= |ns| then Total(ns[k..]) else 0 }

  lemma TotalTail(ns: seq<int>, k: nat)
    requires k <= |ns|
    ensures TotalFrom(ns, k) == if k < |ns| then ns[k] + TotalFrom(ns, k + 1) else 0
  {
    if k < |ns| { assert ns[k..][1..] == ns[k + 1..]; }
  }

  lemma {:induction false} TotalUpdate(ns: seq<int>, i: nat, n: int)
    requires i < |ns|
    ensures Total(ns[i := n]) == Total(ns) - ns[i] + n
  {
    if i == 0 {
      assert ns[0 := n][1..] == ns[1..];
    } else {
      assert ns[i := n][1..] == ns[1..][i - 1 := n];
      TotalUpdate(ns[1..], i - 1, n);
    }
  }

  // ---------- all lists together ----------

  /** Links, list heads and GC_free_bytes; lists and home say which blocks are on which list. */
  datatype AllLists = AllLists(next: Links, prev: Links, heads: seq<nat>, freeBytes: seq<int>,
                               lists: seq<seq<nat>>, home: map<nat, nat>)

  datatype Lengths = Right | Wrong

  /** There is a head, a byte count and a list for every index. */
  ghost function LengthsOf(a: AllLists): Lengths {
    if |a.heads| == N_HBLK_FLS + 1 && |a.lists| == N_HBLK_FLS + 1 && |a.freeBytes| == N_HBLK_FLS + 1 then Right else Wrong
  }

  predicate Listed(a: AllLists, i: nat, x: nat) { i < |a.lists| && x in a.lists[i] }

  ghost predicate ListsOk(a: AllLists, s: Shape) {
    && LengthsOf(a) == Right
    && (forall i: nat :: i <= N_HBLK_FLS ==> ListOk(a, s, i))
    && (forall x: nat {:trigger HomeOk(a, s, x)} :: x in a.home ==> HomeOk(a, s, x))
  }

  /** The home of x is the list it is on. */
  ghost predicate HomeOk(a: AllLists, s: Shape, x: nat) {
    x in s && x in a.home && Listed(a, a.home[x], x)
  }

  /** List i is well formed, is the home of its blocks, and GC_free_bytes[i] counts them. */
  ghost predicate ListOk(a: AllLists, s: Shape, i: nat) {
    && i < |a.lists| == |a.heads| == |a.freeBytes|
    && Linked(a.next, a.prev, a.heads[i], a.lists[i])
    && (forall x: nat {:trigger Listed(a, i, x)} :: Listed(a, i, x) ==> x in a.home && a.home[x] == i)
    && a.freeBytes[i] == SumSizes(s, a.lists[i])
  }

  function Put(l: seq<nat>, j: nat, n: nat): seq<nat>
    requires j < |l|
  {
    l[j := n]
  }

  function At(m: Links, h: nat): nat { if h in m then m[h] else 0 }

  /** GC_remove_from_fl of the j-th block of list i. */
  function Removed(a: AllLists, s: Shape, i: nat, j: nat): AllLists
    requires i < |a.lists| == |a.heads| == |a.freeBytes| && j < |a.lists[i]|
  {
    var h := a.lists[i][j];
    AllLists(if At(a.prev, h) == 0 then a.next else a.next[At(a.prev, h) := At(a.next, h)],
             if At(a.next, h) == 0 then a.prev else a.prev[At(a.next, h) := At(a.prev, h)],
             if At(a.prev, h) == 0 then a.heads[i := At(a.next, h)] else a.heads,
             a.freeBytes[i := a.freeBytes[i] - SizeOf(s, h)],
             a.lists[i := RemoveAt(a.lists[i], j)], a.home - {h})
  }

  /** GC_add_to_fl. */
  function Added(a: AllLists, s: Shape, h: nat): AllLists
    requires |a.lists| == |a.heads| == |a.freeBytes| == N_HBLK_FLS + 1
  {
    var i := FlIndex(SizeOf(s, h));
    var head := a.heads[i];
    AllLists(a.next[h := head], if head == 0 then a.prev[h := 0] else a.prev[h := 0][head := h],
             a.heads[i := h], a.freeBytes[i := a.freeBytes[i] + SizeOf(s, h)],
             a.lists[i := [h] + a.lists[i]], a.home[h := i])
  }

  /** The list surgery of GC_split_block: n takes the place of the j-th block of list i. */
  function Replaced(a: AllLists, s: Shape, i: nat, j: nat, n: nat): AllLists
    requires i < |a.lists| == |a.heads| == |a.freeBytes| && j < |a.lists[i]|
  {
    var h := a.lists[i][j];
    var next1, prev1 := a.next[n := At(a.next, h)], a.prev[n := At(a.prev, h)];
    AllLists(if At(a.prev, h) == 0 then next1 else next1[At(a.prev, h) := n],
             if At(a.next, h) == 0 then prev1 else prev1[At(a.next, h) := n],
             if At(a.prev, h) == 0 then a.heads[i := n] else a.heads,
             a.freeBytes[i := a.freeBytes[i] - (SizeOf(s, h) - SizeOf(s, n))],
             a.lists[i := Put(a.lists[i], j, n)], (a.home - {h})[n := i])
  }

  /** The links of the neighbours of the j-th block of list i are not on another list. */
  lemma OtherList(a: AllLists, s: Shape, i: nat, i': nat, j: nat)
    requires ListsOk(a, s) && i <= N_HBLK_FLS && i' <= N_HBLK_FLS && i != i' && j < |a.lists[i]|
    ensures var h, l := a.lists[i][j], a.lists[i'];
      LinkedAt(a.next, a.prev, a.lists[i], j)
      && forall x :: x in l ==> x in a.next && x in a.prev && x != h && x != a.next[h] && x != a.prev[h]
  {
    var m, l := a.lists[i], a.lists[i'];
    assert ListOk(a, s, i) && ListOk(a, s, i') && LinkedAt(a.next, a.prev, m, j);
    assert Listed(a, i, m[j]);
    if 0 < j { assert Listed(a, i, m[j - 1]); }
    if j + 1 < |m| { assert Listed(a, i, m[j + 1]); }
    forall x | x in l ensures x in a.next && x in a.prev && x != m[j] && x != a.next[m[j]] && x != a.prev[m[j]] {
      var k: nat :| k < |l| && l[k] == x;
      assert LinkedAt(a.next, a.prev, l, k) && Listed(a, i', x);
    }
  }

  lemma OnList(a: AllLists, s: Shape, i: nat, j: nat)
    requires ListsOk(a, s) && i <= N_HBLK_FLS && j < |a.lists[i]|
    ensures var h := a.lists[i][j];
      h in s && h in a.home && a.home[h] == i && h != 0 && LinkedAt(a.next, a.prev, a.lists[i], j)
  {
    assert ListOk(a, s, i) && LinkedAt(a.next, a.prev, a.lists[i], j) && Listed(a, i, a.lists[i][j]);
    assert HomeOk(a, s, a.lists[i][j]);
  }

  lemma RemovedOk(a: AllLists, s: Shape, i: nat, j: nat)
    requires ListsOk(a, s) && i <= N_HBLK_FLS && j < |a.lists[i]|
    ensures var b := Removed(a, s, i, j);
      ListsOk(b, s) && Total(b.freeBytes) == Total(a.freeBytes) - SizeOf(s, a.lists[i][j])
  {
    var b, h := Removed(a, s, i, j), a.lists[i][j];
    OnList(a, s, i, j);
    TotalUpdate(a.freeBytes, i, a.freeBytes[i] - SizeOf(s, h));
    assert ListOk(a, s, i);
    RemovedAt(a.lists[i], j);
    forall i': nat | i' <= N_HBLK_FLS ensures ListOk(b, s, i') {
      assert ListOk(a, s, i');
      if i' == i {
        Unlink(a.next, a.prev, a.heads[i], a.lists[i], j);
        SumRemove(s, a.lists[i], j);
      } else {
        OtherList(a, s, i, i', j);
        LinkedFrame(a.next, a.prev, b.next, b.prev, a.heads[i'], a.lists[i']);
      }
      forall x: nat | Listed(b, i', x) ensures x in b.home && b.home[x] == i' { assert Listed(a, i', x); }
    }
    forall x: nat | x in b.home ensures HomeOk(b, s, x) { assert HomeOk(a, s, x); }
  }

  lemma AddedOk(a: AllLists, s: Shape, h: nat)
    requires ListsOk(a, s) && h in s && h != 0 && h !in a.home
    ensures var b := Added(a, s, h);
      ListsOk(b, s) && Total(b.freeBytes) == Total(a.freeBytes) + SizeOf(s, h)
  {
    var b, i := Added(a, s, h), FlIndex(SizeOf(s, h));
    TotalUpdate(a.freeBytes, i, a.freeBytes[i] + SizeOf(s, h));
    forall i': nat | i' <= N_HBLK_FLS ensures ListOk(b, s, i') { AddedListOk(a, s, h, i'); }
    forall x: nat | x in b.home ensures HomeOk(b, s, x) { assert x == h || HomeOk(a, s, x); }
  }

  lemma AddedListOk(a: AllLists, s: Shape, h: nat, i': nat)
    requires ListsOk(a, s) && h in s && h != 0 && h !in a.home && i' <= N_HBLK_FLS
    ensures ListOk(Added(a, s, h), s, i')
  {
    var b, i := Added(a, s, h), FlIndex(SizeOf(s, h));
    assert ListOk(a, s, i) && ListOk(a, s, i');
    AddedLinked(a, s, h, i');
    AddedHomes(a, s, h, i');
    hide Linked;
    if i' == i {
      assert b.lists[i] == [h] + a.lists[i] && ([h] + a.lists[i])[1..] == a.lists[i];
    }
  }

  lemma AddedHomes(a: AllLists, s: Shape, h: nat, i': nat)
    requires ListsOk(a, s) && h in s && h != 0 && h !in a.home && i' <= N_HBLK_FLS
    ensures var b := Added(a, s, h); forall x: nat :: Listed(b, i', x) ==> x in b.home && b.home[x] == i'
  {
    var b, i := Added(a, s, h), FlIndex(SizeOf(s, h));
    assert ListOk(a, s, i');
    assert forall x: nat :: Listed(a, i', x) ==> x in a.home && a.home[x] == i';
    assert !Listed(a, i', h);
    assert i' != i && Listed(b, i', h) ==> Listed(a, i', h);
    hide Linked, ListOk, ListsOk;
    forall x: nat | Listed(b, i', x) ensures x in b.home && b.home[x] == i' {
      if x == h {
        assert i' == i && b.home[h] == i;
      } else {
        if i' == i { assert b.lists[i'] == [h] + a.lists[i']; } else { assert b.lists[i'] == a.lists[i']; }
        assert Listed(a, i', x);
      }
    }
  }

  lemma AddedLinked(a: AllLists, s: Shape, h: nat, i': nat)
    requires ListsOk(a, s) && h in s && h != 0 && h !in a.home && i' <= N_HBLK_FLS
    ensures var b := Added(a, s, h); Linked(b.next, b.prev, b.heads[i'], b.lists[i'])
  {
    var b, i := Added(a, s, h), FlIndex(SizeOf(s, h));
    assert ListOk(a, s, i) && ListOk(a, s, i');
    assert !Listed(a, i', h);
    if i' == i {
      LinkFront(a.next, a.prev, a.heads[i], a.lists[i], h);
    } else {
      if a.lists[i] != [] { assert Listed(a, i, a.lists[i][0]); }
      forall x | x in a.lists[i'] ensures x in a.next && x in a.prev && x != a.heads[i] && x != h {
        var k: nat :| k < |a.lists[i']| && a.lists[i'][k] == x;
        assert LinkedAt(a.next, a.prev, a.lists[i'], k) && Listed(a, i', x);
      }
      LinkedFrame(a.next, a.prev, b.next, b.prev, a.heads[i'], a.lists[i']);
    }
  }

  lemma PutIn(l: seq<nat>, j: nat, n: nat)
    requires j < |l| && NoDup(l)
    ensures forall x: nat :: x in Put(l, j, n) <==> (x in l && x != l[j]) || x == n
  {
    var m := Put(l, j, n);
    forall x: nat ensures x in m <==> (x in l && x != l[j]) || x == n {
      if x in l && x != l[j] { var k: nat :| k < |l| && l[k] == x; assert m[k] == x; }
      if x == n { assert m[j] == n; }
    }
  }

  lemma ReplacedOk(a: AllLists, s: Shape, i: nat, j: nat, n: nat)
    requires ListsOk(a, s) && i <= N_HBLK_FLS && j < |a.lists[i]| && n in s && n != 0 && n !in a.home
    ensures var b := Replaced(a, s, i, j, n);
      ListsOk(b, s) && Total(b.freeBytes) == Total(a.freeBytes) - SizeOf(s, a.lists[i][j]) + SizeOf(s, n)
  {
    var b, h, l := Replaced(a, s, i, j, n), a.lists[i][j], a.lists[i];
    OnList(a, s, i, j);
    TotalUpdate(a.freeBytes, i, a.freeBytes[i] - (SizeOf(s, h) - SizeOf(s, n)));
    assert ListOk(a, s, i);
    PutIn(l, j, n);
    forall i': nat | i' <= N_HBLK_FLS ensures ListOk(b, s, i') {
      assert ListOk(a, s, i') && !Listed(a, i', n);
      if i' == i {
        Relink(a.next, a.prev, a.heads[i], l, j, n);
        SumReplace(s, l, j, n);
      } else {
        OtherList(a, s, i, i', j);
        LinkedFrame(a.next, a.prev, b.next, b.prev, a.heads[i'], a.lists[i']);
      }
      forall x: nat | Listed(b, i', x) ensures x in b.home && b.home[x] == i' { assert x == n || Listed(a, i', x); }
    }
    forall x: nat | x in b.home ensures HomeOk(b, s, x) { assert x == n || HomeOk(a, s, x); }
  }

  /** Headers of blocks that are on no list may change freely. */
  lemma ListsOkSame(a: AllLists, s: Shape, t: Shape)
    requires ListsOk(a, s) && forall x :: x in a.home ==> x in t && SizeOf(t, x) == SizeOf(s, x)
    ensures ListsOk(a, t)
  {
    forall i: nat | i <= N_HBLK_FLS ensures ListOk(a, t, i) {
      assert ListOk(a, s, i);
      forall x | x in a.lists[i] ensures SizeOf(t, x) == SizeOf(s, x) { assert Listed(a, i, x); }
      SumSame(s, t, a.lists[i]);
    }
    forall x: nat | x in a.home ensures HomeOk(a, t, x) { assert HomeOk(a, s, x); }
  }
}
