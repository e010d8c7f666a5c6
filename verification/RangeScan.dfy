/**
How GC_mark_from scans the ranges on the mark stack (libs/gc/mark.c:634-719, 821-911): a backward
search for a deferred pointer, a forward loop, and the splitting of long ranges, compared with a
plain scan from left to right.  Addresses and lengths are counted in units of ALIGNMENT bytes.
 */
module RangeScan {
  import Arithmetic

  type Positive = n: nat | 0 < n witness 1

  /** sizeof(word). */
  const WORD: Positive

  /** 0x80000000 / sizeof(word): the words that an int can count. */
  const INT_WORDS: Positive

  /** SPLIT_RANGE_WORDS. */
  const SPLIT_RANGE_WORDS: nat := 128

  /** SHARE_BYTES; a shared range has at least two words in each half. */
  const SHARE: Positive

  /** HBLKSIZE, the credit of one call. */
  const HBLKSIZE: Positive

  /** GC_MARK_STACK_DISCARDS. */
  const DISCARDS: nat

  /** A mark stack entry with a length descriptor. */
  datatype Range = Range(start: int, len: int)

  datatype Option<T> = None | Some(value: T)

  /** The words in memory, by the address of their first unit, and the bounds of plausible heap addresses. */
  datatype View = View(word: int -> int, least: int, greatest: int)

  predicate Plausible(v: View, x: int) { v.least <= v.word(x) < v.greatest }

  /** One past the last position of a range: its last word is the last that is scanned. */
  function End(r: Range): int { r.start + r.len - WORD + 1 }

  /** The plain scan: the positions of plausible pointers that start in [lo, hi), from left to right. */
  function Scan(v: View, lo: int, hi: int): (s: seq<int>)
    decreases hi - lo
  {
    if hi <= lo then [] else Scan(v, lo, hi - 1) + (if Plausible(v, hi - 1) then [hi - 1] else [])
  }

  /** The positions of plausible pointers in a range. */
  function ScanRange(v: View, r: Range): seq<int> { Scan(v, r.start, End(r)) }

  predicate Position(r: Range, x: int) { r.start <= x < End(r) }

  /** How often the plain scan of r takes the pointer at x. */
  function Takes(v: View, r: Range, x: int): nat { if Position(r, x) && Plausible(v, x) then 1 else 0 }

  /** How often the plain scans of all these ranges take it. */
  function Owed(v: View, s: seq<Range>, x: int): nat {
    if s == [] then 0 else Owed(v, s[..|s| - 1], x) + Takes(v, s[|s| - 1], x)
  }

  /** The plain scan takes every plausible position in its range, and takes them in ascending order, so each once. */
  lemma {:induction false} ScanIs(v: View, lo: int, hi: int, x: int)
    ensures x in Scan(v, lo, hi) <==> lo <= x < hi && Plausible(v, x)
    ensures var s := Scan(v, lo, hi); forall i, j {:trigger s[i], s[j]} :: 0 <= i < j < |s| ==> s[i] < s[j]
    decreases hi - lo
  {
    if lo < hi {
      ScanIs(v, lo, hi - 1, x);
      var s := Scan(v, lo, hi - 1);
      forall k | 0 <= k < |s| ensures lo <= s[k] < hi - 1 { ScanIs(v, lo, hi - 1, s[k]); }
    }
  }

  lemma {:induction false} ScanJoin(v: View, lo: int, mid: int, hi: int)
    requires lo <= mid <= hi
    ensures Scan(v, lo, mid) + Scan(v, mid, hi) == Scan(v, lo, hi)
    decreases hi - mid
  {
    if mid < hi {
      ScanJoin(v, lo, mid, hi - 1);
      var last: seq<int> := if Plausible(v, hi - 1) then [hi - 1] else [];
      assert Scan(v, lo, mid) + (Scan(v, mid, hi - 1) + last) == (Scan(v, lo, mid) + Scan(v, mid, hi - 1)) + last;
    } else {
      assert Scan(v, lo, mid) + [] == Scan(v, lo, mid);
    }
  }

  lemma {:induction false} ScanNothing(v: View, lo: int, hi: int)
    requires forall x :: lo <= x < hi ==> !Plausible(v, x)
    ensures Scan(v, lo, hi) == []
    decreases hi - lo
  {
    if lo < hi { ScanNothing(v, lo, hi - 1); }
  }

  lemma {:induction false} ScanCounts(v: View, r: Range, x: int)
    ensures multiset(ScanRange(v, r))[x] == Takes(v, r, x)
  {
    var s := ScanRange(v, r);
    ScanIs(v, r.start, End(r), x);
    OnceIfSorted(s, x);
    hide Scan;
  }

  lemma {:induction false} OnceIfSorted(s: seq<int>, x: int)
    requires forall i, j {:trigger s[i], s[j]} :: 0 <= i < j < |s| ==> s[i] < s[j]
    ensures multiset(s)[x] == if x in s then 1 else 0
  {
    if s != [] {
      var n := |s| - 1;
      OnceIfSorted(s[..n], x);
      assert s == s[..n] + [s[n]];
    }
  }

  lemma OwedPush(v: View, s: seq<Range>, r: Range, x: int)
    ensures Owed(v, s + [r], x) == Owed(v, s, x) + Takes(v, r, x)
  {
    assert (s + [r])[..|s|] == s;
  }

  lemma {:induction false} OwedJoin(v: View, s: seq<Range>, t: seq<Range>, x: int)
    ensures Owed(v, s + t, x) == Owed(v, s, x) + Owed(v, t, x)
  {
    if t == [] {
      assert s + t == s;
    } else {
      var n := |t| - 1;
      OwedJoin(v, s, t[..n], x);
      assert (s + t)[..|s + t| - 1] == s + t[..n];
      assert (s + t)[|s + t| - 1] == t[n];
    }
  }

  /** The range of the one position x. */
  function One(x: int): Range { Range(x, WORD) }

  /** The range of the positions from lo up to hi. */
  function Part(lo: int, hi: int): Range { Range(lo, hi - lo + WORD - 1) }

  // ---------- splitting ----------

  /** The part of a long range that is scanned at once: 127 words. */
  function Piece(): int { (SPLIT_RANGE_WORDS - 1) * WORD }

  /** A length descriptor that does not take the short path. */
  predicate Long(len: int) { SPLIT_RANGE_WORDS * WORD <= len }

  /** Conversion of a count of words, taken in bytes, to int. */
  function ToInt(words: int): int { (words + INT_WORDS) % (2 * INT_WORDS) - INT_WORDS }

  /** Bit 31 of half the size is set. */
  predicate HalfNegative(len: int) { ToInt(len / (2 * WORD)) < 0 }

  /** new_size: half the range, rounded down to words, converted to int. */
  function NewSize(len: int): int { ToInt(len / (2 * WORD)) * WORD }

  /**
   * The two parts of a range that is shared with other markers.  A negative length of the lower part stands
   * for a descriptor that, being unsigned, is close to the size of the address space: either way the parts
   * leave the range.
   */
  function Lower(r: Range): Range { Range(r.start, NewSize(r.len) + WORD) }

  function Upper(r: Range): Range { Range(r.start + NewSize(r.len), r.len - NewSize(r.len)) }

  /** The first and the remaining part of a long range that is not shared. */
  function First(r: Range): Range { Range(r.start, Piece() + WORD - 1) }

  function Rest(r: Range): Range { Range(r.start + Piece(), r.len - Piece()) }

  /** Splitting off 127 words neither loses a position nor takes one twice, also those of words that overlap both parts. */
  lemma SplitExact(v: View, r: Range, x: int)
    requires Long(r.len)
    ensures Takes(v, First(r), x) + Takes(v, Rest(r), x) == Takes(v, r, x)
    ensures WORD <= Rest(r).len && WORD <= First(r).len
  {
  }

  lemma DivParts(x: int, d: int)
    requires 0 <= x && 0 < d
    ensures 0 <= x / d && x / d * d <= x
  {
    var q := x / d;
    assert x == q * d + x % d;
    if q < 0 { MulLe(q, -1, d); }
  }

  lemma Twice(k: int, w: int)
    ensures k * (2 * w) == 2 * (k * w)
  {
  }

  lemma HalfWords(len: int)
    requires 0 <= len
    ensures 0 <= len / (2 * WORD) && 2 * (len / (2 * WORD) * WORD) <= len
  {
    DivParts(len, 2 * WORD);
    Twice(len / (2 * WORD), WORD);
  }

  lemma MulLe(a: int, b: int, w: int)
    requires a <= b && 0 < w
    ensures a * w <= b * w
  {
    assert 0 <= (b - a) * w;
    assert (b - a) * w == b * w - a * w;
  }

  lemma MulSign(k: int, w: int)
    requires 0 < w
    ensures k < 0 <==> k * w < 0
    ensures k < 0 ==> k * w + w <= 0
    ensures 0 < k ==> w <= k * w
  {
    if k < 0 { MulLe(k, -1, w); } else { MulLe(0, k, w); }
    if 0 < k { MulLe(1, k, w); }
  }

  lemma WrapLe(n: int, k: int)
    requires 0 <= n && 0 < k
    ensures (n + k) % (2 * k) - k <= n
    ensures n < k ==> (n + k) % (2 * k) - k == n
  {
    var q, m := (n + k) / (2 * k), (n + k) % (2 * k);
    assert n + k == q * (2 * k) + m;
    if n < k {
      if 1 <= q { MulLe(1, q, 2 * k); }
      MulSign(q, 2 * k);
    } else {
      MulSign(q, 2 * k);
    }
  }

  /** new_size never exceeds half the range; it may be negative. */
  lemma NewSizeBound(len: int)
    requires 0 <= len
    ensures 2 * NewSize(len) <= len
    ensures NewSize(len) < 0 <==> HalfNegative(len)
    ensures NewSize(len) < 0 ==> NewSize(len) + WORD <= 0
    ensures 0 <= NewSize(len) && WORD <= len ==> NewSize(len) + WORD <= len
  {
    HalfWords(len);
    WrapLe(len / (2 * WORD), INT_WORDS);
    MulLe(ToInt(len / (2 * WORD)), len / (2 * WORD), WORD);
    MulSign(ToInt(len / (2 * WORD)), WORD);
  }

  /** Sharing takes every position of the range, and of those only the first of the upper part twice. */
  lemma ShareTwice(v: View, r: Range, x: int)
    requires WORD <= r.len && !HalfNegative(r.len)
    ensures Takes(v, Lower(r), x) + Takes(v, Upper(r), x) == Takes(v, r, x) + Takes(v, One(Upper(r).start), x)
    ensures WORD <= Lower(r).len && WORD <= Upper(r).len
  {
    NewSizeBound(r.len);
    hide NewSize, HalfNegative, Plausible;
  }

  /**
  The parts of a shared range lie inside it exactly if half its size, as an int, is not negative:
  ranges whose half has bit 31 set make the collector scan below the range.
   */
  lemma ShareInsideIff(r: Range)
    requires WORD <= r.len
    ensures (forall x :: Position(Lower(r), x) || Position(Upper(r), x) ==> Position(r, x)) <==> !HalfNegative(r.len)
  {
    NewSizeBound(r.len);
    hide NewSize, HalfNegative;
    if NewSize(r.len) < 0 {
      assert Position(Upper(r), r.start + NewSize(r.len)) && !Position(r, r.start + NewSize(r.len));
    }
  }

  /** No range of fewer than 4 GB is affected, nor are the parts it is split into. */
  predicate Fits(len: int) { len / (2 * WORD) < INT_WORDS }

  lemma FitsShorter(a: int, b: int)
    requires 0 <= a <= b && Fits(b)
    ensures Fits(a)
  {
    var p, q := a / (2 * WORD), b / (2 * WORD);
    assert a == p * (2 * WORD) + a % (2 * WORD) && b == q * (2 * WORD) + b % (2 * WORD);
    if q < p { MulLe(q + 1, p, 2 * WORD); }
  }

  lemma FitsHalves(r: Range)
    requires Fits(r.len) && Long(r.len)
    ensures !HalfNegative(r.len) && WORD <= Lower(r).len && WORD <= Upper(r).len && Fits(Lower(r).len) && Fits(Upper(r).len)
  {
    HalfWords(r.len);
    WrapLe(r.len / (2 * WORD), INT_WORDS);
    NewSizeBound(r.len);
    FitsShorter(Lower(r).len, r.len);
    FitsShorter(Upper(r).len, r.len);
  }

  function FourGB(): int { INT_WORDS * (2 * WORD) }

  lemma TwiceInt()
    ensures ToInt(INT_WORDS) == 0 - INT_WORDS
  {
    var k := 2 * INT_WORDS;
    assert INT_WORDS + INT_WORDS == 1 * k + 0;
    Arithmetic.DivModUnique(k, k, 1, 0);
  }

  lemma FourGBHalf()
    ensures NewSize(FourGB()) == 0 - INT_WORDS * WORD && FourGB() == 2 * (INT_WORDS * WORD)
  {
    DivExact(INT_WORDS, 2 * WORD);
    TwiceInt();
    NegMul(INT_WORDS, WORD);
    hide ToInt;
  }

  lemma NegMul(a: int, b: int)
    ensures (0 - a) * b == 0 - a * b && a * (2 * b) == 2 * (a * b)
  {
  }

  /** A range of 4 GB is affected. */
  lemma FourGigabytes(start: int)
    ensures var r := Range(start, FourGB());
      NewSize(r.len) == 0 - INT_WORDS * WORD && Position(Upper(r), start - INT_WORDS * WORD) && !Position(r, start - INT_WORDS * WORD)
  {
    FourGBHalf();
    MulSign(INT_WORDS, WORD);
    hide NewSize, FourGB;
  }

  lemma DivExact(k: int, d: int)
    requires 0 < d
    ensures k * d / d == k
  {
    var q, m := k * d / d, k * d % d;
    assert k * d == q * d + m;
    assert (k - q) * d == m;
    if k - q >= 1 { MulLe(1, k - q, d); }
    if k - q <= -1 { MulLe(k - q, -1, d); }
  }

  // ---------- the marker ----------

  /** The mark stack and its history. */
  datatype Ledger = Ledger(
    stack: seq<Range>,
    log: seq<int>,        // the positions PUSH_CONTENTS was applied to
    begun: seq<Range>,    // the first mark stack
    pushed: seq<Range>,   // what PUSH_CONTENTS has added to it
    dropped: seq<Range>,  // what overflows have discarded
    twice: seq<Range>)    // the positions that belong to both parts of shared ranges

  /** The pointer at x was taken, or is in an entry or in one of the two ranges at hand, as often as plain scans would take it. */
  predicate BalanceAt(v: View, l: Ledger, a: Range, b: Range, x: int) {
    multiset(l.log)[x] + Owed(v, l.stack, x) + Owed(v, l.dropped, x) + Takes(v, a, x) + Takes(v, b, x)
    == Owed(v, l.begun, x) + Owed(v, l.pushed, x) + Owed(v, l.twice, x)
  }

  ghost predicate Balance(v: View, l: Ledger, a: Range, b: Range) {
    forall x {:trigger BalanceAt(v, l, a, b, x)} :: BalanceAt(v, l, a, b, x)
  }

  const NONE: Range := Range(0, 0)

  /** The ledger after PUSH_CONTENTS for the pointer at x. */
  function Logged(l: Ledger, x: int): Ledger { l.(log := l.log + [x]) }

  lemma ConsiderDeferred(v: View, l: Ledger, p: int, q: int, x: int)
    requires Balance(v, l, Part(p, q), One(x)) && Plausible(v, x) && q <= p
    ensures Balance(v, Logged(l, x), NONE, NONE)
  {
    forall y ensures BalanceAt(v, Logged(l, x), NONE, NONE, y) { assert BalanceAt(v, l, Part(p, q), One(x), y); }
  }

  function LoggedIf(v: View, l: Ledger, x: int): Ledger { if Plausible(v, x) then Logged(l, x) else l }

  lemma ConsiderFirst(v: View, l: Ledger, p: int, q: int, b: Range)
    requires Balance(v, l, Part(p, q), b) && p < q
    ensures Balance(v, LoggedIf(v, l, p), Part(p + 1, q), b)
  {
    var m, a := LoggedIf(v, l, p), Part(p + 1, q);
    forall y ensures BalanceAt(v, m, a, b, y) { assert BalanceAt(v, l, Part(p, q), b, y); }
  }

  /** A range without plausible pointers needs no scan. */
  lemma NothingThere(v: View, l: Ledger, r: Range)
    requires Balance(v, l, r, NONE) && forall x :: r.start <= x < End(r) ==> !Plausible(v, x)
    ensures Balance(v, l, NONE, NONE)
  {
    forall x ensures BalanceAt(v, l, NONE, NONE, x) { assert BalanceAt(v, l, r, NONE, x); }
  }

  lemma PushNew(v: View, l: Ledger, a: Range, b: Range, r: Range)
    requires Balance(v, l, a, b)
    ensures Balance(v, l.(stack := l.stack + [r], pushed := l.pushed + [r]), a, b)
  {
    var m := l.(stack := l.stack + [r], pushed := l.pushed + [r]);
    forall x ensures BalanceAt(v, m, a, b, x) {
      assert BalanceAt(v, l, a, b, x);
      OwedPush(v, l.stack, r, x);
      OwedPush(v, l.pushed, r, x);
    }
  }

  /** The last entries are dropped. */
  lemma Drop(v: View, l: Ledger, a: Range, b: Range, n: nat)
    requires Balance(v, l, a, b) && n <= |l.stack|
    ensures Balance(v, l.(stack := l.stack[..n], dropped := l.dropped + l.stack[n..]), a, b)
  {
    var m := l.(stack := l.stack[..n], dropped := l.dropped + l.stack[n..]);
    forall x ensures BalanceAt(v, m, a, b, x) {
      assert BalanceAt(v, l, a, b, x);
      OwedJoin(v, l.stack[..n], l.stack[n..], x);
      OwedJoin(v, l.dropped, l.stack[n..], x);
      assert l.stack[..n] + l.stack[n..] == l.stack;
    }
  }

  /** The top entry is taken off. */
  lemma Pop(v: View, l: Ledger)
    requires Balance(v, l, NONE, NONE) && l.stack != []
    ensures Balance(v, l.(stack := l.stack[..|l.stack| - 1]), l.stack[|l.stack| - 1], NONE)
  {
    var n := |l.stack| - 1;
    forall x ensures BalanceAt(v, l.(stack := l.stack[..n]), l.stack[n], NONE, x) { assert BalanceAt(v, l, NONE, NONE, x); }
  }

  /** The second range at hand is put back. */
  lemma PutBack(v: View, l: Ledger, a: Range, b: Range)
    requires Balance(v, l, a, b)
    ensures Balance(v, l.(stack := l.stack + [b]), a, NONE)
  {
    forall x ensures BalanceAt(v, l.(stack := l.stack + [b]), a, NONE, x) {
      assert BalanceAt(v, l, a, b, x);
      OwedPush(v, l.stack, b, x);
    }
  }

  lemma SplitAtHand(v: View, l: Ledger, r: Range)
    requires Balance(v, l, r, NONE) && Long(r.len)
    ensures Balance(v, l, First(r), Rest(r))
  {
    forall x ensures BalanceAt(v, l, First(r), Rest(r), x) {
      assert BalanceAt(v, l, r, NONE, x);
      SplitExact(v, r, x);
      hide Piece;
    }
  }

  lemma ShareAtHand(v: View, l: Ledger, r: Range)
    requires Balance(v, l, r, NONE) && WORD <= r.len && !HalfNegative(r.len)
    ensures Balance(v, l.(twice := l.twice + [One(Upper(r).start)]), Upper(r), Lower(r))
  {
    var m := l.(twice := l.twice + [One(Upper(r).start)]);
    hide HalfNegative, NewSize;
    forall x ensures BalanceAt(v, m, Upper(r), Lower(r), x) {
      assert BalanceAt(v, l, r, NONE, x);
      ShareTwice(v, r, x);
      OwedPush(v, l.twice, One(Upper(r).start), x);
    }
  }

  /** mid is the last position with a plausible pointer. */
  lemma Defer(v: View, l: Ledger, lo: int, mid: int, hi: int)
    requires Balance(v, l, Part(lo, hi), NONE) && lo <= mid < hi
    requires forall x :: mid < x < hi ==> !Plausible(v, x)
    ensures Balance(v, l, Part(lo, mid), One(mid))
  {
    forall x ensures BalanceAt(v, l, Part(lo, mid), One(mid), x) { assert BalanceAt(v, l, Part(lo, hi), NONE, x); }
  }

  function Entries(o: Option<Range>): seq<Range> { match o case None => [] case Some(r) => [r] }

  lemma ScanNext(v: View, lo: int, p: int)
    requires lo <= p
    ensures Scan(v, lo, p + 1) == if Plausible(v, p) then Scan(v, lo, p) + [p] else Scan(v, lo, p)
  {
  }

  /** The entries that PUSH_CONTENTS adds for the pointers at the positions s: none, or the object that is now marked. */
  function Pushes(push: int -> Option<Range>, s: seq<int>): seq<Range> {
    if s == [] then [] else Pushes(push, s[..|s| - 1]) + Entries(push(s[|s| - 1]))
  }

  /** The mark stack after the entries rs were pushed: a push on a full stack discards entries first. */
  function Stacked(capacity: nat, stack: seq<Range>, rs: seq<Range>): seq<Range> {
    if rs == [] then stack
    else
      var t := Stacked(capacity, stack, rs[..|rs| - 1]);
      (if capacity <= |t| then t[..if DISCARDS <= |t| then |t| - DISCARDS else 0] else t) + [rs[|rs| - 1]]
  }

  /** PUSH_CONTENTS has been applied to the positions s, in this order. */
  predicate Considered(capacity: nat, was: Ledger, now: Ledger, push: int -> Option<Range>, s: seq<int>) {
    && now.log == was.log + s && now.pushed == was.pushed + Pushes(push, s)
    && now.begun == was.begun && now.twice == was.twice && now.stack == Stacked(capacity, was.stack, Pushes(push, s))
  }

  /**
   * What GC_mark_from does with its top entry r before it scans: a long range is shared in halves while that is allowed
   * and there is room, then cut at 127 words.  The result is the stack, and the piece that is scanned.
   */
  function Dealt(capacity: nat, parallel: bool, stack: seq<Range>, r: Range): (seq<Range>, Range)
    decreases capacity - |stack|
  {
    if Long(r.len) && SHARE < r.len && parallel && |stack| < capacity - 1 then Dealt(capacity, parallel, stack + [Lower(r)], Upper(r))
    else if Long(r.len) then (stack + [Rest(r)], First(r))
    else (stack, r)
  }

  lemma PushesNext(push: int -> Option<Range>, s: seq<int>, p: int)
    ensures Pushes(push, [p]) == Entries(push(p)) && Pushes(push, s + [p]) == Pushes(push, s) + Entries(push(p))
  {
    assert [p][..0] == [] && (s + [p])[..|s|] == s;
  }

  lemma ConsideredOneMore(capacity: nat, was: Ledger, now: Ledger, next: Ledger, push: int -> Option<Range>, s: seq<int>, p: int)
    requires Considered(capacity, was, now, push, s) && Considered(capacity, now, next, push, [p])
    ensures Considered(capacity, was, next, push, s + [p])
  {
    PushesNext(push, s, p);
    StackedNext(capacity, was.stack, Pushes(push, s), push(p));
    hide Stacked, Pushes, Entries;
    assert was.log + s + [p] == was.log + (s + [p]);
  }

  /** The mark stack, the credit that is left, and the positions considered. */
  datatype Rounds = Rounds(stack: seq<Range>, credit: int, log: seq<int>)

  /** One round of GC_mark_from: the top entry is dealt with, and what is taken of it is scanned. */
  function OneRound(v: View, capacity: nat, parallel: bool, t: Rounds, push: int -> Option<Range>): Rounds
    requires t.stack != []
  {
    var d := Dealt(capacity, parallel, t.stack[..|t.stack| - 1], t.stack[|t.stack| - 1]);
    var s := ScanRange(v, d.1);
    Rounds(Stacked(capacity, d.0, Pushes(push, s)), t.credit - d.1.len, t.log + s)
  }

  /** After n rounds, of which there are no more when the stack is empty or the credit used up. */
  function AfterRounds(v: View, capacity: nat, parallel: bool, start: Rounds, pushes: nat -> int -> Option<Range>, n: nat): Rounds {
    if n == 0 then start
    else
      var t := AfterRounds(v, capacity, parallel, start, pushes, n - 1);
      if t.stack == [] || t.credit < 0 then t else OneRound(v, capacity, parallel, t, pushes(n - 1))
  }

  lemma RoundsStart(v: View, capacity: nat, parallel: bool, start: Rounds, pushes: nat -> int -> Option<Range>)
    ensures AfterRounds(v, capacity, parallel, start, pushes, 0) == start
  {
  }

  lemma NextRound(v: View, capacity: nat, parallel: bool, start: Rounds, pushes: nat -> int -> Option<Range>, n: nat)
    ensures var t := AfterRounds(v, capacity, parallel, start, pushes, n);
      t.stack != [] && 0 <= t.credit ==>
      AfterRounds(v, capacity, parallel, start, pushes, n + 1) == OneRound(v, capacity, parallel, t, pushes(n))
  {
  }

  /** The next position is considered, if its pointer is plausible. */
  lemma ConsideredNext(capacity: nat, v: View, was: Ledger, now: Ledger, next: Ledger, push: int -> Option<Range>, lo: int, p: int)
    requires lo <= p && Considered(capacity, was, now, push, Scan(v, lo, p))
    requires if Plausible(v, p) then Considered(capacity, now, next, push, [p]) else next == now
    ensures Considered(capacity, was, next, push, Scan(v, lo, p + 1))
  {
    ScanNext(v, lo, p);
    hide *;
    if Plausible(v, p) { ConsideredOneMore(capacity, was, now, next, push, Scan(v, lo, p), p); }
  }

  lemma StackedOne(capacity: nat, stack: seq<Range>, o: Option<Range>)
    ensures Stacked(capacity, stack, Entries(o)) == match o
            case None => stack
            case Some(r) => (if capacity <= |stack| then stack[..if DISCARDS <= |stack| then |stack| - DISCARDS else 0] else stack) + [r]
  {
    if o.Some? { assert [o.value][..0] == []; }
  }

  lemma StackedNext(capacity: nat, stack: seq<Range>, rs: seq<Range>, o: Option<Range>)
    ensures Stacked(capacity, stack, rs + Entries(o)) == Stacked(capacity, Stacked(capacity, stack, rs), Entries(o))
  {
    match o
    case None => assert rs + [] == rs;
    case Some(r) => assert (rs + [r])[..|rs|] == rs && [r][..0] == [];
  }

  lemma ConsideredNothing(capacity: nat, l: Ledger, push: int -> Option<Range>)
    ensures Considered(capacity, l, l, push, [])
  {
  }

  /** A mark stack entry never has size 0; sharing needs ranges that an int can halve. */
  predicate EntryOk(parallel: bool, r: Range) { WORD <= r.len && (parallel ==> Fits(r.len)) }

  ghost predicate PushOk(parallel: bool, push: int -> Option<Range>) {
    forall x {:trigger push(x)} :: push(x).Some? ==> EntryOk(parallel, push(x).value)
  }

  lemma RestOk(parallel: bool, r: Range)
    requires EntryOk(parallel, r) && Long(r.len)
    ensures EntryOk(parallel, Rest(r)) && WORD <= First(r).len
  {
    SplitExact(View(x => 0, 0, 0), r, 0);
    if parallel { FitsShorter(Rest(r).len, r.len); }
  }

  class RangeMarker {
    const v: View
    const capacity: nat
    const parallel: bool
    var stack: seq<Range>
    var overflowed: bool  // GC_signal_mark_stack_overflow was called
    ghost var l: Ledger

    ghost predicate Sane()
      reads this
    {
      && 0 < DISCARDS <= capacity && |stack| <= capacity && l.stack == stack
      && (forall k :: 0 <= k < |stack| ==> EntryOk(parallel, stack[k]))
      && (overflowed <==> l.dropped != [])
      && (!parallel ==> l.twice == [])
    }

    constructor (v: View, capacity: nat, parallel: bool, first: seq<Range>)
      requires 0 < DISCARDS <= capacity && |first| <= capacity
      requires forall k :: 0 <= k < |first| ==> EntryOk(parallel, first[k])
      ensures this.v == v && this.parallel == parallel && stack == first && !overflowed
      ensures l == Ledger(first, [], first, [], [], []) && Sane() && Balance(v, l, NONE, NONE)
    {
      this.v, this.capacity, this.parallel, stack, overflowed := v, capacity, parallel, first, false;
      l := Ledger(first, [], first, [], [], []);
    }

    /** Without an overflow nothing is left out, and only the overlap of shared ranges is taken twice. */
    lemma Complete(x: int)
      requires Sane() && Balance(v, l, NONE, NONE) && stack == [] && !overflowed
      ensures multiset(l.log)[x] == Owed(v, l.begun, x) + Owed(v, l.pushed, x) + Owed(v, l.twice, x)
      ensures !parallel ==> multiset(l.log)[x] == Owed(v, l.begun, x) + Owed(v, l.pushed, x)
    {
      assert BalanceAt(v, l, NONE, NONE, x);
    }

    /** PUSH_OBJ, after an overflow on a stack without some of its entries. */
    method PushOn(r: Range, ghost a: Range, ghost b: Range)
      requires Sane() && EntryOk(parallel, r) && Balance(v, l, a, b)
      modifies this
      ensures Sane() && stack == Stacked(capacity, old(stack), [r])
      ensures Balance(v, l, a, b)
      ensures l == old(l).(stack := l.stack, dropped := l.dropped, pushed := old(l).pushed + [r])
    {
      hide Balance, Stacked;
      StackedOne(capacity, stack, Some(r));
      if capacity <= |stack| {
        ghost var n := |stack| - DISCARDS;
        Drop(v, l, a, b, n);
        overflowed, stack, l := true, stack[..|stack| - DISCARDS], l.(stack := l.stack[..n], dropped := l.dropped + l.stack[n..]);
      }
      PushNew(v, l, a, b, r);
      stack, l := stack + [r], l.(stack := l.stack + [r], pushed := l.pushed + [r]);
    }

    /** PUSH_CONTENTS for the pointer at x; push(x) is what PUSH_OBJ is to push, if the object was not marked. */
    method PushContents(x: int, push: int -> Option<Range>, ghost a: Range, ghost b: Range)
      requires Sane() && Balance(v, Logged(l, x), a, b) && PushOk(parallel, push)
      modifies this
      ensures Sane() && Balance(v, l, a, b) && Considered(capacity, old(l), l, push, [x])
    {
      hide Balance, Stacked;
      assert [x][..0] == [];
      assert Pushes(push, [x]) == Entries(push(x));
      StackedOne(capacity, stack, push(x));
      hide Pushes;
      l := Logged(l, x);
      match push(x)
      case None =>
      case Some(r) => PushOn(r, a, b);
    }

    /**
    The scan of the positions from start up to hi: PUSH_CONTENTS is applied to the pointers that the plain
    scan finds, in the same order, although the last of them is found first.
     */
    method ScanPiece(start: int, hi: int, push: int -> Option<Range>)
      requires Sane() && Balance(v, l, Part(start, hi), NONE) && start < hi && PushOk(parallel, push)
      modifies this
      ensures Sane() && Balance(v, l, NONE, NONE)
      ensures Considered(capacity, old(l), l, push, Scan(v, start, hi))
    {
      hide Balance, Sane, Considered, PushOk;
      var found, deferred := FindDeferred(start, hi);
      if found {
        Defer(v, l, start, deferred, hi);
        ScanJoin(v, start, deferred + 1, hi);
        ScanNothing(v, deferred + 1, hi);
        hide Scan;
        Forward(start, deferred, push);
        assert Scan(v, start, deferred + 1) + [] == Scan(v, start, deferred + 1);
      } else {
        Barren(start, hi);
        ConsideredNothing(capacity, l, push);
      }
    }

    /** The backward search for the last plausible pointer, two words a round. */
    method FindDeferred(start: int, hi: int) returns (found: bool, deferred: int)
      requires start < hi
      ensures start <= deferred < hi && (found <==> Plausible(v, deferred))
      ensures forall x :: (if found then deferred < x < hi else start <= x < hi) ==> !Plausible(v, x)
    {
      var limit := hi - 1;
      deferred := start;
      while true
        invariant start <= limit < hi && forall x :: limit < x < hi ==> !Plausible(v, x)
        decreases limit - start
      {
        deferred, limit := limit, limit - 1;
        if Plausible(v, deferred) { return true, deferred; }
        if start > limit { return false, deferred; }
        deferred, limit := limit, limit - 1;
        if Plausible(v, deferred) { return true, deferred; }
        if start > limit { return false, deferred; }
      }
    }

    /** The forward loop, and the deferred pointer last. */
    method Forward(start: int, deferred: int, push: int -> Option<Range>)
      requires Sane() && Balance(v, l, Part(start, deferred), One(deferred)) && start <= deferred && PushOk(parallel, push)
      requires Plausible(v, deferred)
      modifies this
      ensures Sane() && Balance(v, l, NONE, NONE)
      ensures Considered(capacity, old(l), l, push, Scan(v, start, deferred + 1))
    {
      ConsideredNothing(capacity, l, push);
      hide Balance, Sane, Considered, PushOk;
      var p := start;
      while p <= deferred - 1
        invariant start <= p <= deferred
        invariant Sane() && Balance(v, l, Part(p, deferred), One(deferred))
        invariant Considered(capacity, old(l), l, push, Scan(v, start, p))
      {
        ConsiderFirst(v, l, p, deferred, One(deferred));
        hide Scan, Plausible;
        ghost var was := l;
        if Plausible(v, p) { PushContents(p, push, Part(p + 1, deferred), One(deferred)); }
        ConsideredNext(capacity, v, old(l), was, l, push, start, p);
        p := p + 1;
      }
      ConsiderDeferred(v, l, p, deferred, deferred);
      hide Scan;
      ghost var was := l;
      PushContents(deferred, push, NONE, NONE);
      ConsideredNext(capacity, v, old(l), was, l, push, start, deferred);
    }

    lemma Barren(start: int, hi: int)
      requires Balance(v, l, Part(start, hi), NONE) && start < hi && forall x :: start <= x < hi ==> !Plausible(v, x)
      ensures Balance(v, l, NONE, NONE) && Scan(v, start, hi) == []
    {
      NothingThere(v, l, Part(start, hi));
      ScanNothing(v, start, hi);
    }

    /** The top entry is taken off, shared while that is allowed, and cut; r is what is to be scanned at once. */
    method TakeTop() returns (r: Range)
      requires Sane() && Balance(v, l, NONE, NONE) && stack != []
      modifies this
      ensures Sane() && Balance(v, l, r, NONE) && WORD <= r.len
      ensures (stack, r) == Dealt(capacity, parallel, old(stack)[..|old(stack)| - 1], old(stack)[|old(stack)| - 1])
      ensures l.begun == old(l.begun) && l.log == old(l.log) && l.pushed == old(l.pushed) && l.dropped == old(l.dropped)
    {
      hide Balance, NewSize, HalfNegative, Fits, Lower, Upper, First, Rest;
      r := stack[|stack| - 1];
      ghost var d := Dealt(capacity, parallel, stack[..|stack| - 1], r);
      Pop(v, l);
      stack, l := stack[..|stack| - 1], l.(stack := l.stack[..|l.stack| - 1]);
      while Long(r.len) && r.len > SHARE && parallel && |stack| < capacity - 1
        invariant Sane() && EntryOk(parallel, r) && Balance(v, l, r, NONE) && |stack| < capacity && l.begun == old(l.begun)
        invariant d == Dealt(capacity, parallel, stack, r) && l.log == old(l.log) && l.pushed == old(l.pushed) && l.dropped == old(l.dropped)
        decreases capacity - |stack|
      {
        FitsHalves(r);
        ShareAtHand(v, l, r);
        ghost var n := l.(twice := l.twice + [One(Upper(r).start)]);
        PutBack(v, n, Upper(r), Lower(r));
        stack, l := stack + [Lower(r)], n.(stack := n.stack + [Lower(r)]);
        r := Upper(r);
      }
      if Long(r.len) {
        SplitAtHand(v, l, r);
        SplitExact(v, r, 0);
        RestOk(parallel, r);
        PutBack(v, l, First(r), Rest(r));
        stack, l := stack + [Rest(r)], l.(stack := l.stack + [Rest(r)]);
        r := First(r);
      }
    }

    /** One round of the loop of GC_mark_from. */
    method MarkTop(credit: int, push: int -> Option<Range>) returns (left: int)
      requires Sane() && Balance(v, l, NONE, NONE) && stack != [] && PushOk(parallel, push)
      modifies this
      ensures Sane() && Balance(v, l, NONE, NONE) && left < credit && l.begun == old(l.begun)
      ensures Rounds(stack, left, l.log) == OneRound(v, capacity, parallel, Rounds(old(stack), credit, old(l.log)), push)
      ensures l.pushed == old(l.pushed) + Pushes(push, ScanRange(v, Dealt(capacity, parallel, old(stack)[..|old(stack)| - 1], old(stack)[|old(stack)| - 1]).1))
    {
      hide Balance, Stacked, Pushes, Scan, Dealt;
      var r := TakeTop();
      left := credit - r.len;
      ScanPiece(r.start, End(r), push);
    }

    /** GC_mark_from, in n rounds; in round i the pointer at x leads to the entry pushes(i)(x), if any. */
    method MarkFrom(pushes: nat -> int -> Option<Range>) returns (credit: int, n: nat)
      requires Sane() && Balance(v, l, NONE, NONE) && forall n: nat :: PushOk(parallel, pushes(n))
      modifies this
      ensures Sane() && Balance(v, l, NONE, NONE) && l.begun == old(l.begun)
      ensures Rounds(stack, credit, l.log) == AfterRounds(v, capacity, parallel, Rounds(old(stack), HBLKSIZE, old(l.log)), pushes, n)
      ensures credit <= HBLKSIZE && (stack == [] || credit < 0)
      ensures stack == [] && !overflowed ==> Accounted()
    {
      hide *;
      credit, n := MarkWhileCredit(pushes);
      if stack == [] && !overflowed { AllAccounted(); }
    }

    /** Every position is considered as often as it should be. */
    ghost predicate Accounted() reads this {
      forall x :: multiset(l.log)[x] == Owed(v, l.begun, x) + Owed(v, l.pushed, x) + Owed(v, l.twice, x)
    }

    lemma AllAccounted()
      requires Sane() && Balance(v, l, NONE, NONE) && stack == [] && !overflowed
      ensures Accounted()
    {
      hide Sane, Balance, Owed;
      forall x ensures multiset(l.log)[x] == Owed(v, l.begun, x) + Owed(v, l.pushed, x) + Owed(v, l.twice, x) { Complete(x); }
    }

    /** The loop of GC_mark_from. */
    method MarkWhileCredit(pushes: nat -> int -> Option<Range>) returns (credit: int, n: nat)
      requires Sane() && Balance(v, l, NONE, NONE) && forall n: nat :: PushOk(parallel, pushes(n))
      modifies this
      ensures Sane() && Balance(v, l, NONE, NONE) && l.begun == old(l.begun)
      ensures Rounds(stack, credit, l.log) == AfterRounds(v, capacity, parallel, Rounds(old(stack), HBLKSIZE, old(l.log)), pushes, n)
      ensures credit <= HBLKSIZE && (stack == [] || credit < 0)
    {
      credit, n := HBLKSIZE, 0;
      ghost var start := Rounds(stack, credit, l.log);
      RoundsStart(v, capacity, parallel, start, pushes);
      hide *;
      while stack != [] && credit >= 0
        invariant Sane() && Balance(v, l, NONE, NONE) && l.begun == old(l.begun) && credit <= HBLKSIZE
        invariant Rounds(stack, credit, l.log) == AfterRounds(v, capacity, parallel, start, pushes, n)
        decreases credit
      {
        NextRound(v, capacity, parallel, start, pushes, n);
        credit := MarkTop(credit, pushes(n));
        n := n + 1;
      }
    }
  }
}
