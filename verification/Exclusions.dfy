/**
Static data that is excluded from the roots (libs/gc/mark_rts.c:370-476): a sorted table in a fixed
array, searched by halving, and the pushing of what lies between its ranges.
 */
module Exclusions {

  /** The addresses from start up to end. */
  datatype Range = Range(start: int, end: int)

  predicate In(r: Range, x: int) { r.start <= x < r.end }

  ghost predicate InSome(s: seq<Range>, x: int) { exists k :: 0 <= k < |s| && In(s[k], x) }

  /** Ranges that are not empty, apart from each other and in ascending order. */
  predicate Ascending(s: seq<Range>) {
    && (forall k :: 0 <= k < |s| ==> s[k].start < s[k].end)
    && (forall i, j :: 0 <= i < j < |s| ==> s[i].end <= s[j].start)
  }

  /** k is the first range of s that ends after x, or |s|. */
  predicate IsNext(s: seq<Range>, x: int, k: nat) {
    && k <= |s|
    && (forall i :: 0 <= i < k ==> s[i].end <= x)
    && (k < |s| ==> x < s[k].end)
  }

  ghost predicate Overlaps(s: seq<Range>, r: Range) {
    exists x :: In(r, x) && InSome(s, x)
  }

  /** The range r is added before the entry k, or joined to it if it ends where that begins. */
  function Inserted(s: seq<Range>, k: nat, r: Range): seq<Range>
    requires k <= |s|
  {
    if k < |s| && s[k].start == r.end then s[k := Range(r.start, s[k].end)] else s[..k] + [r] + s[k..]
  }

  /** The test on the first range that ends after r begins decides whether r overlaps any range. */
  lemma OverlapTest(s: seq<Range>, k: nat, r: Range)
    requires Ascending(s) && IsNext(s, r.start, k) && r.start < r.end
    ensures Overlaps(s, r) <==> k < |s| && s[k].start < r.end
  {
    if k < |s| && s[k].start < r.end {
      var x := if s[k].start < r.start then r.start else s[k].start;
      assert In(s[k], x) && In(r, x);
    }
    forall x | In(r, x) && InSome(s, x) ensures k < |s| && s[k].start < r.end {
      var i :| 0 <= i < |s| && In(s[i], x);
      assert k <= i;
    }
  }

  lemma InsertedIn(s: seq<Range>, k: nat, r: Range, x: int)
    requires k <= |s| && r.start < r.end && forall i :: 0 <= i < |s| ==> s[i].start < s[i].end
    ensures InSome(Inserted(s, k, r), x) <==> InSome(s, x) || In(r, x)
  {
    var t := Inserted(s, k, r);
    if In(r, x) { assert In(t[k], x); }
    if InSome(s, x) {
      var i :| 0 <= i < |s| && In(s[i], x);
      assert if i < k || |t| == |s| then In(t[i], x) else In(t[i + 1], x);
    }
    if InSome(t, x) {
      var i :| 0 <= i < |t| && In(t[i], x);
      if i == k {
        assert In(r, x) || (k < |s| && In(s[k], x));
      } else {
        assert t[i] == if i < k || |t| == |s| then s[i] else s[i - 1];
      }
    }
  }

  lemma InsertedAscending(s: seq<Range>, k: nat, r: Range)
    requires Ascending(s) && IsNext(s, r.start, k) && r.start < r.end && (k < |s| ==> r.end <= s[k].start)
    ensures Ascending(Inserted(s, k, r))
  {
    var t := Inserted(s, k, r);
    forall i, j | 0 <= i < j < |t| ensures t[i].end <= t[j].start {
      if |t| == |s| {
        assert i < k ==> s[i].end <= r.start;
      } else {
        assert t[i] == if i < k then s[i] else if i == k then r else s[i - 1];
        assert t[j] == if j < k then s[j] else if j == k then r else s[j - 1];
      }
    }
  }

  /** The table stays in order, and excludes r besides what it excluded before. */
  lemma InsertedOk(s: seq<Range>, k: nat, r: Range)
    requires Ascending(s) && IsNext(s, r.start, k) && r.start < r.end && !Overlaps(s, r)
    ensures Ascending(Inserted(s, k, r))
    ensures forall x :: InSome(Inserted(s, k, r), x) <==> InSome(s, x) || In(r, x)
  {
    OverlapTest(s, k, r);
    InsertedAscending(s, k, r);
    forall x ensures InSome(Inserted(s, k, r), x) <==> InSome(s, x) || In(r, x) { InsertedIn(s, k, r, x); }
  }

  datatype Outcome = Excluded | RangesOverlap | TooMany

  class ExclusionTable {
    const MAX_EXCLUSIONS: nat
    const table: array<Range>  // GC_excl_table, with the memory behind it as one more element
    var entries: nat           // GC_excl_table_entries

    ghost predicate Valid()
      reads this, table
    {
      0 < MAX_EXCLUSIONS && table.Length == MAX_EXCLUSIONS + 1 && entries <= MAX_EXCLUSIONS && Ascending(table[..entries])
    }

    constructor (max: nat)
      requires 0 < max
      ensures Valid() && MAX_EXCLUSIONS == max && entries == 0 && fresh(table)
    {
      MAX_EXCLUSIONS, entries := max, 0;
      table := new Range[max + 1](_ => Range(0, 0));
    }

    /** GC_next_exclusion; the caller of the source knows that the table is not empty. */
    method NextExclusion(x: int) returns (next: nat)
      requires Valid() && 0 < entries
      ensures IsNext(table[..entries], x, next)
    {
      var low, high := 0, entries - 1;
      while high > low
        invariant 0 <= low <= high < entries
        invariant forall i :: 0 <= i < low ==> table[i].end <= x
        invariant high < entries - 1 ==> x < table[high].end
      {
        var mid := (low + high) / 2;
        if table[mid].end <= x {
          assert forall i :: 0 <= i < mid ==> table[..entries][i].end <= table[..entries][mid].start;
          low := mid + 1;
        } else {
          high := mid;
        }
      }
      next := if table[low].end <= x then entries else low;
    }

    /** The entries from next on move up by one, the last of a full table out of it. */
    method ShiftUp(next: nat)
      requires table.Length == MAX_EXCLUSIONS + 1 && next < entries <= MAX_EXCLUSIONS
      modifies table
      ensures forall k :: 0 <= k <= next ==> table[k] == old(table[k])
      ensures forall k :: next < k <= entries ==> table[k] == old(table[k - 1])
      ensures forall k :: entries < k < table.Length ==> table[k] == old(table[k])
    {
      var i := entries;
      while i > next
        invariant next <= i <= entries
        invariant forall k :: 0 <= k <= i ==> table[k] == old(table[k])
        invariant forall k :: i < k <= entries ==> table[k] == old(table[k - 1])
        invariant forall k :: entries < k < table.Length ==> table[k] == old(table[k])
      {
        table[i] := table[i - 1];
        i := i - 1;
      }
    }

    /**
    GC_exclude_static_roots_inner; RangesOverlap and TooMany stand for ABORT.  A full table is noticed
    only after its last entry was written to the memory behind it.
     */
    method Exclude(start: int, finish: int) returns (o: Outcome)
      requires Valid() && start < finish
      modifies this, table
      ensures o.RangesOverlap? <==> Overlaps(old(table[..entries]), Range(start, finish))
      ensures o.Excluded? ==> Valid()
      ensures o.Excluded? ==> forall x :: InSome(table[..entries], x) <==> InSome(old(table[..entries]), x) || start <= x < finish
      ensures o.Excluded? ==> entries == old(entries) + if Joins(old(table[..entries]), finish) then 0 else 1
      ensures o.RangesOverlap? ==> table[..] == old(table[..])
      ensures !o.Excluded? ==> entries == old(entries)
      ensures o.TooMany? ==> old(entries) == MAX_EXCLUSIONS && !Joins(old(table[..entries]), finish)
      ensures old(entries) == MAX_EXCLUSIONS && !Joins(old(table[..entries]), finish) ==> o.TooMany? || o.RangesOverlap?
      ensures o.TooMany? && Behind(old(table[..entries]), finish) ==> table[MAX_EXCLUSIONS] == old(table[MAX_EXCLUSIONS - 1])
      ensures !(o.TooMany? && Behind(old(table[..entries]), finish)) ==> table[MAX_EXCLUSIONS] == old(table[MAX_EXCLUSIONS])
    {
      var r := Range(start, finish);
      ghost var s := table[..entries];
      var next := entries;
      if 0 < entries { next := NextExclusion(start); }
      assert next < entries ==> s[next] == table[next];
      OverlapTest(s, next, r);
      NextDecides(s, next, r);
      hide Overlaps, Joins, Behind;
      if next < entries {
        if table[next].start < finish { return RangesOverlap; }
        if table[next].start == finish {
          InsertedOk(s, next, r);
          table[next] := Range(start, table[next].end);
          assert table[..entries] == Inserted(s, next, r);
          return Excluded;
        }
        ShiftUp(next);
      }
      if entries == MAX_EXCLUSIONS { return TooMany; }
      InsertedOk(s, next, r);
      InsertedAt(s, next, r);
      table[next] := r;
      entries := entries + 1;
      assert table[..entries] == s[..next] + [r] + s[next..];
      return Excluded;
    }

    /** GC_push_conditional_with_exclusions: the ranges given to GC_push_conditional, in this order. */
    method PushConditionalWithExclusions(bottom: int, top: int) returns (pushed: seq<Range>)
      requires Valid() && 0 < entries
      ensures Ascending(pushed)
      ensures forall x :: InSome(pushed, x) <==> bottom <= x < top && !InSome(table[..entries], x)
    {
      var b := bottom;
      pushed := [];
      ghost var s := table[..entries];
      while b < top
        invariant bottom <= b
        invariant Ascending(pushed) && forall k :: 0 <= k < |pushed| ==> pushed[k].end <= b
        invariant forall x :: InSome(pushed, x) <==> bottom <= x < b && x < top && !InSome(s, x)
        decreases top - b
      {
        var next := NextExclusion(b);
        if next == entries || table[next].start >= top {
          GapFree(s, b, next, top);
          Extend(pushed, Range(b, top));
          return pushed + [Range(b, top)];
        }
        GapFree(s, b, next, table[next].start);
        if table[next].start > b {
          Extend(pushed, Range(b, table[next].start));
          pushed := pushed + [Range(b, table[next].start)];
        }
        forall x | table[next].start <= x < table[next].end ensures InSome(s, x) { assert In(s[next], x); }
        b := table[next].end;
      }
    }
  }

  /** A table that excludes exactly one range holds just that range, if it has one entry. */
  lemma OneRange(s: seq<Range>, r: Range)
    requires |s| == 1 && Ascending(s) && r.start < r.end && forall x :: InSome(s, x) <==> In(r, x)
    ensures s == [r]
  {
    assert In(s[0], s[0].start) && In(s[0], s[0].end - 1) && InSome(s, r.start) && InSome(s, r.end - 1);
    assert InSome(s, s[0].start) && InSome(s, s[0].end - 1);
  }

  /** A table for one range overruns: the second call moves the first range behind the table before it aborts. */
  method OverrunFullTable() returns (t: ExclusionTable, o: Outcome)
    ensures o == TooMany && t.MAX_EXCLUSIONS == 1 && t.table.Length == 2 && t.table[1] == Range(8, 16)
  {
    t := new ExclusionTable(1);
    assert t.table[..t.entries] == [];
    var first := t.Exclude(8, 16);
    assert InSome(t.table[..t.entries], 8);
    OneRange(t.table[..t.entries], Range(8, 16));
    assert t.table[..t.entries][0] == t.table[0];
    ghost var s := t.table[..t.entries];
    o := t.Exclude(0, 4);
  }

  lemma InsertedAt(s: seq<Range>, k: nat, r: Range)
    requires k <= |s| && !(k < |s| && s[k].start == r.end)
    ensures Inserted(s, k, r) == s[..k] + [r] + s[k..]
  {
  }

  /** If no range overlaps r, the range after r begins at its end, or all that begin after its end come from there on. */
  lemma NextDecides(s: seq<Range>, k: nat, r: Range)
    requires Ascending(s) && IsNext(s, r.start, k) && r.start < r.end
    ensures k < |s| && s[k].start == r.end ==> Joins(s, r.end)
    ensures !(k < |s| && s[k].start <= r.end) ==> !Joins(s, r.end) && (Behind(s, r.end) <==> k < |s|)
  {
    if k < |s| && s[k].start > r.end { assert r.end < s[k].start; }
    if i :| 0 <= i < |s| && r.end <= s[i].start { assert k <= i; }
  }

  /** Some range of s begins at x. */
  ghost predicate Joins(s: seq<Range>, x: int) { exists k :: 0 <= k < |s| && s[k].start == x }

  /** Some range of s begins after x. */
  ghost predicate Behind(s: seq<Range>, x: int) { exists k :: 0 <= k < |s| && x < s[k].start }

  lemma GapFree(s: seq<Range>, b: int, k: nat, e: int)
    requires Ascending(s) && IsNext(s, b, k) && (k < |s| ==> e <= s[k].start)
    ensures forall x :: b <= x < e ==> !InSome(s, x)
  {
  }

  lemma Extend(s: seq<Range>, r: Range)
    requires Ascending(s) && r.start < r.end && forall k :: 0 <= k < |s| ==> s[k].end <= r.start
    ensures Ascending(s + [r]) && forall x :: InSome(s + [r], x) <==> InSome(s, x) || In(r, x)
  {
    forall x ensures InSome(s + [r], x) <==> InSome(s, x) || In(r, x) {
      if In(r, x) { assert In((s + [r])[|s|], x); }
      if InSome(s, x) {
        var k :| 0 <= k < |s| && In(s[k], x);
        assert In((s + [r])[k], x);
      }
    }
  }
}
