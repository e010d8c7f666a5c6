/**
The hash tables of disappearing links and finalizers (libs/gc/finalize.c:40-80, 99-137): chains of
nodes linked through a next field, updated in place.  Nodes are named by numbers, 0 is the null
pointer, and the hash function is a parameter.
 */
module ChainTables {

  type Chain = seq<nat>

  /** l is the chain that starts at head. */
  ghost predicate IsChain(next: map<nat, nat>, head: nat, l: Chain)
    decreases l
  {
    if l == [] then head == 0 else head == l[0] != 0 && head in next && IsChain(next, next[head], l[1..])
  }

  /** The last node, or 0. */
  function LastOf(l: Chain): nat { if l == [] then 0 else l[|l| - 1] }

  lemma LastAppend(l: Chain, n: nat)
    ensures LastOf(l + [n]) == n
  {
  }

  ghost predicate Distinct(l: Chain) { forall j, k :: 0 <= j < k < |l| ==> l[j] != l[k] }

  /** Changes to other nodes do not matter. */
  lemma {:induction false} ChainFrame(next: map<nat, nat>, next': map<nat, nat>, head: nat, l: Chain)
    requires IsChain(next, head, l) && forall x :: x in l ==> x in next' && x in next && next'[x] == next[x]
    ensures IsChain(next', head, l)
    decreases l
  {
    if l != [] {
      assert l[0] in l;
      ChainFrame(next, next', next[head], l[1..]);
    }
  }

  lemma ChainFront(next: map<nat, nat>, head: nat, l: Chain, n: nat)
    requires IsChain(next, head, l) && n != 0 && n !in l && forall x :: x in l ==> x in next
    ensures IsChain(next[n := head], n, [n] + l)
  {
    ChainFrame(next, next[n := head], head, l);
    assert ([n] + l)[1..] == l;
  }

  lemma {:induction false} ChainNodes(next: map<nat, nat>, head: nat, l: Chain)
    requires IsChain(next, head, l)
    ensures forall x :: x in l ==> x in next && x != 0
    decreases l
  {
    if l != [] {
      ChainNodes(next, next[head], l[1..]);
      assert forall x :: x in l ==> x == l[0] || x in l[1..];
    }
  }

  /** The end of a chain is a chain; its head is what the last node before it points to. */
  lemma {:induction false} ChainRest(next: map<nat, nat>, head: nat, pre: Chain, rest: Chain)
    requires IsChain(next, head, pre + rest) && pre != []
    ensures pre[|pre| - 1] in next && IsChain(next, next[pre[|pre| - 1]], rest)
    decreases pre
  {
    assert (pre + rest)[1..] == pre[1..] + rest;
    if |pre| > 1 { ChainRest(next, next[head], pre[1..], rest); } else { assert pre[1..] + rest == rest; }
  }

  /** The end of a chain is replaced by another one. */
  lemma {:induction false} ChainCut(next: map<nat, nat>, head: nat, pre: Chain, rest: Chain, rest': Chain, to: nat)
    requires IsChain(next, head, pre + rest) && pre != [] && Distinct(pre) && IsChain(next, to, rest')
    requires pre[|pre| - 1] !in rest'
    ensures IsChain(next[pre[|pre| - 1] := to], head, pre + rest')
    decreases pre
  {
    var p := pre[|pre| - 1];
    assert (pre + rest)[1..] == pre[1..] + rest && (pre + rest')[1..] == pre[1..] + rest';
    if |pre| > 1 {
      ChainCut(next, next[head], pre[1..], rest, rest', to);
    } else {
      assert pre[1..] + rest' == rest';
      ChainNodes(next, to, rest');
      ChainFrame(next, next[p := to], to, rest');
    }
  }

  /** What the table says about its entries: key and payload of each node. */
  datatype Entry<V> = Entry(key: nat, value: V)

  /** The index of a key in a table of this size. */
  function Slot(hash: (nat, nat) -> nat, key: nat, size: nat): (i: nat)
    requires 0 < size
    ensures i < size
  {
    hash(key, size) % size
  }

  /** Node n of chain i is the entry for its key, and hashes to i. */
  ghost predicate NodeOk<V>(hash: (nat, nat) -> nat, size: nat, entries: map<nat, Entry<V>>, index: map<nat, nat>, i: nat, n: nat) {
    0 < size && n in entries && Slot(hash, entries[n].key, size) == i && entries[n].key in index && index[entries[n].key] == n
  }

  /** The entry for key k is on the chain k hashes to. */
  ghost predicate KeyOk<V>(hash: (nat, nat) -> nat, size: nat, entries: map<nat, Entry<V>>, index: map<nat, nat>, lists: seq<Chain>, k: nat) {
    && k in index && 0 < size == |lists| && index[k] in entries && entries[index[k]].key == k
    && index[k] in lists[Slot(hash, k, size)]
  }

  /** Chain i is well formed and holds what hashes to i, once each. */
  ghost predicate SlotOk<V>(hash: (nat, nat) -> nat, size: nat, next: map<nat, nat>, entries: map<nat, Entry<V>>,
                            index: map<nat, nat>, head: nat, l: Chain, i: nat) {
    && IsChain(next, head, l) && Distinct(l)
    && forall n :: n in l ==> NodeOk(hash, size, entries, index, i, n)
  }

  /** SlotOk for every chain, and an entry for every key. */
  ghost predicate TableOk<V>(hash: (nat, nat) -> nat, size: nat, heads: seq<nat>, next: map<nat, nat>,
                             entries: map<nat, Entry<V>>, lists: seq<Chain>, index: map<nat, nat>) {
    && |heads| == |lists| == size
    && (forall i: nat {:trigger SlotOk(hash, size, next, entries, index, heads[i], lists[i], i)} ::
          i < size ==> SlotOk(hash, size, next, entries, index, heads[i], lists[i], i))
    && forall k: nat {:trigger KeyOk(hash, size, entries, index, lists, k)} ::
         k in index ==> KeyOk(hash, size, entries, index, lists, k)
  }

  lemma InsertOk<V>(hash: (nat, nat) -> nat, size: nat, heads: seq<nat>, next: map<nat, nat>, entries: map<nat, Entry<V>>,
                    lists: seq<Chain>, index: map<nat, nat>, n: nat, k: nat, v: V)
    requires TableOk(hash, size, heads, next, entries, lists, index) && 0 < size && k !in index && n != 0 && n !in entries
    ensures var i := Slot(hash, k, size);
      TableOk(hash, size, heads[i := n], next[n := heads[i]], entries[n := Entry(k, v)], lists[i := [n] + lists[i]], index[k := n])
  {
    var i := Slot(hash, k, size);
    var heads', next', entries' := heads[i := n], next[n := heads[i]], entries[n := Entry(k, v)];
    var lists', index' := lists[i := [n] + lists[i]], index[k := n];
    forall j: nat | j < size ensures SlotOk(hash, size, next', entries', index', heads'[j], lists'[j], j) {
      assert SlotOk(hash, size, next, entries, index, heads[j], lists[j], j);
      ChainNodes(next, heads[j], lists[j]);
      assert n in lists[j] ==> NodeOk(hash, size, entries, index, j, n);
      if j == i { ChainFront(next, heads[i], lists[i], n); } else { ChainFrame(next, next', heads[j], lists[j]); }
      forall x | x in lists'[j] ensures NodeOk(hash, size, entries', index', j, x) {
        if x != n { assert NodeOk(hash, size, entries, index, j, x); }
      }
    }
    forall c: nat | c in index' ensures KeyOk(hash, size, entries', index', lists', c) {
      if c != k { assert KeyOk(hash, size, entries, index, lists, c); }
    }
  }

  /** The nodes of a chain with its first node after pre taken out. */
  lemma WithoutNode(pre: Chain, rest: Chain)
    requires rest != [] && Distinct(pre + rest)
    ensures Distinct(pre) && Distinct(pre + rest[1..]) && (pre != [] ==> pre[|pre| - 1] !in rest[1..])
    ensures forall x :: x in pre + rest[1..] <==> x in pre + rest && x != rest[0]
  {
    var l, m := pre + rest, pre + rest[1..];
    assert forall j: nat :: j < |m| ==> m[j] == l[if j < |pre| then j else j + 1];
    assert l[|pre|] == rest[0];
    if pre != [] { assert l[|pre| - 1] == pre[|pre| - 1]; }
    assert forall j: nat :: j < |rest| - 1 ==> rest[1..][j] == l[|pre| + 1 + j];
    assert forall j: nat :: j < |pre| ==> pre[j] == l[j];
    forall x ensures x in m <==> x in l && x != rest[0] {
      if x in l && x != rest[0] {
        var j :| 0 <= j < |l| && l[j] == x;
        assert m[if j < |pre| then j else j - 1] == x;
      }
    }
  }

  lemma RemoveChain(next: map<nat, nat>, head: nat, pre: Chain, rest: Chain)
    requires IsChain(next, head, pre + rest) && rest != [] && Distinct(pre + rest)
    ensures rest[0] in next && (pre != [] ==> pre[|pre| - 1] in next)
    ensures pre != [] ==> IsChain(Unlinked(next, pre, next[rest[0]]), head, pre + rest[1..])
    ensures IsChain(Unlinked(next, pre, next[rest[0]]), next[rest[0]], rest[1..])
  {
    WithoutNode(pre, rest);
    if pre == [] {
      assert pre + rest == rest;
    } else {
      ChainRest(next, head, pre, rest);
      ChainNodes(next, next[rest[0]], rest[1..]);
      ChainFrame(next, next[pre[|pre| - 1] := next[rest[0]]], next[rest[0]], rest[1..]);
      ChainCut(next, head, pre, rest, rest[1..], next[rest[0]]);
    }
  }

  /** The links after the node behind pre has been taken out; `to` is the node behind it. */
  function Unlinked(next: map<nat, nat>, pre: Chain, to: nat): map<nat, nat> {
    if pre == [] then next else next[pre[|pre| - 1] := to]
  }

  lemma RemoveOk<V>(hash: (nat, nat) -> nat, size: nat, heads: seq<nat>, next: map<nat, nat>, entries: map<nat, Entry<V>>,
                    lists: seq<Chain>, index: map<nat, nat>, k: nat, pre: Chain, rest: Chain)
    requires TableOk(hash, size, heads, next, entries, lists, index) && 0 < size && k in index
    requires lists[Slot(hash, k, size)] == pre + rest && rest != [] && rest[0] == index[k] && index[k] in next
    ensures pre != [] ==> LastOf(pre) != 0
    ensures IsChain(Unlinked(next, pre, next[index[k]]), next[index[k]], rest[1..])
    ensures var i, curr, to := Slot(hash, k, size), index[k], next[index[k]];
      TableOk(hash, size, if pre == [] then heads[i := to] else heads,
              Unlinked(next, pre, to), entries - {curr}, lists[i := pre + rest[1..]], index - {k})
  {
    var i, curr: nat, to: nat := Slot(hash, k, size), index[k], next[index[k]];
    var heads': seq<nat> := if pre == [] then heads[i := to] else heads;
    var next' := Unlinked(next, pre, to);
    var lists' := lists[i := pre + rest[1..]];
    assert SlotOk(hash, size, next, entries, index, heads[i], lists[i], i);
    WithoutNode(pre, rest);
    RemoveChain(next, heads[i], pre, rest);
    assert pre == [] ==> pre + rest[1..] == rest[1..];
    ChainNodes(next, heads[i], lists[i]);
    if pre != [] { assert (pre + rest)[|pre| - 1] in lists[i]; }
    hide IsChain, Distinct;
    forall j: nat | j < size ensures SlotOk(hash, size, next', entries - {curr}, index - {k}, heads'[j], lists'[j], j) {
      assert SlotOk(hash, size, next, entries, index, heads[j], lists[j], j);
      ChainNodes(next, heads[j], lists[j]);
      if j != i {
        assert forall x :: x in lists[j] ==> NodeOk(hash, size, entries, index, j, x);
        assert pre != [] ==> NodeOk(hash, size, entries, index, i, pre[|pre| - 1]);
        ChainFrame(next, next', heads[j], lists[j]);
      }
      forall x | x in lists'[j] ensures NodeOk(hash, size, entries - {curr}, index - {k}, j, x) {
        assert NodeOk(hash, size, entries, index, j, x) && (j != i ==> NodeOk(hash, size, entries, index, i, curr));
      }
    }
    assert KeyOk(hash, size, entries, index, lists, k);
    forall c: nat | c in index - {k} ensures KeyOk(hash, size, entries - {curr}, index - {k}, lists', c) {
      assert KeyOk(hash, size, entries, index, lists, c);
    }
  }

  lemma UpdateOk<V>(hash: (nat, nat) -> nat, size: nat, heads: seq<nat>, next: map<nat, nat>, entries: map<nat, Entry<V>>,
                    lists: seq<Chain>, index: map<nat, nat>, n: nat, v: V)
    requires TableOk(hash, size, heads, next, entries, lists, index) && n in entries
    ensures TableOk(hash, size, heads, next, entries[n := entries[n].(value := v)], lists, index)
  {
    var e := entries[n := entries[n].(value := v)];
    forall i: nat | i < size ensures SlotOk(hash, size, next, e, index, heads[i], lists[i], i) {
      assert SlotOk(hash, size, next, entries, index, heads[i], lists[i], i);
      forall x | x in lists[i] ensures NodeOk(hash, size, e, index, i, x) { assert NodeOk(hash, size, entries, index, i, x); }
    }
    forall k: nat | k in index ensures KeyOk(hash, size, e, index, lists, k) { assert KeyOk(hash, size, entries, index, lists, k); }
  }

  /** The table as a finite map. */
  ghost function MapOf<V>(entries: map<nat, Entry<V>>, index: map<nat, nat>): map<nat, V> {
    map k | k in index && index[k] in entries :: entries[index[k]].value
  }

  /** Changing, adding and removing an entry does the same to the map. */
  lemma MapChanges<V>(hash: (nat, nat) -> nat, size: nat, heads: seq<nat>, next: map<nat, nat>, entries: map<nat, Entry<V>>,
                      lists: seq<Chain>, index: map<nat, nat>, k: nat, n: nat, v: V)
    requires TableOk(hash, size, heads, next, entries, lists, index)
    ensures forall c :: c in MapOf(entries, index) <==> c in index
    ensures k in index && index[k] == n ==> MapOf(entries[n := Entry(k, v)], index) == MapOf(entries, index)[k := v]
    ensures k !in index && n !in entries ==> MapOf(entries[n := Entry(k, v)], index[k := n]) == MapOf(entries, index)[k := v]
    ensures k in index && index[k] == n ==> MapOf(entries - {n}, index - {k}) == MapOf(entries, index) - {k}
  {
    forall c: nat | c in index ensures index[c] in entries && entries[index[c]].key == c {
      assert KeyOk(hash, size, entries, index, lists, c);
    }
    hide TableOk;
  }

  // ---------- growing ----------

  /** Nodes of the old chains that have not been moved yet. */
  ghost predicate Waiting(lists: seq<Chain>, i: int, rest: Chain, n: nat) {
    n in rest || exists j: nat :: i < j < |lists| && n in lists[j]
  }

  /** The new chains are well formed and hold only moved nodes. */
  ghost predicate NewChainsOk<V>(hash: (nat, nat) -> nat, size': nat, next: map<nat, nat>, entries: map<nat, Entry<V>>, index: map<nat, nat>,
                                 heads': seq<nat>, lists': seq<Chain>, moved: set<nat>)
    requires |heads'| == |lists'| == size'
  {
    forall h: nat {:trigger SlotOk(hash, size', next, entries, index, heads'[h], lists'[h], h)} ::
      h < size' ==> SlotOk(hash, size', next, entries, index, heads'[h], lists'[h], h) && forall n :: n in lists'[h] ==> n in moved
  }

  /**
   * GC_grow_table is moving the nodes of chain i; `rest` are those still to be moved, starting at p.  The
   * new chains hold the nodes in `moved`.
   */
  ghost predicate Growing<V>(hash: (nat, nat) -> nat, heads: seq<nat>, lists: seq<Chain>, entries: map<nat, Entry<V>>, index: map<nat, nat>,
                             i: int, p: nat, rest: Chain, next: map<nat, nat>, size': nat, heads': seq<nat>, lists': seq<Chain>, moved: set<nat>) {
    && -1 <= i < |lists| == |heads| && |heads'| == |lists'| == size' && 0 < size'
    && IsChain(next, p, rest) && Distinct(rest) && (if i < 0 then rest == [] else forall n :: n in rest ==> n in lists[i])
    && (forall j: nat {:trigger IsChain(next, heads[j], lists[j])} :: i < j < |lists| ==> IsChain(next, heads[j], lists[j]))
    && (forall n :: n in moved ==> !Waiting(lists, i, rest, n) && n in entries && n in lists'[Slot(hash, entries[n].key, size')])
    && NewChainsOk(hash, size', next, entries, index, heads', lists', moved)
    && (forall j: nat, n: nat :: j < |lists| && n in lists[j] ==> n in moved || Waiting(lists, i, rest, n))
  }

  /** One node moves to the front of its new chain. */
  lemma GrowStep<V>(hash: (nat, nat) -> nat, size: nat, heads: seq<nat>, lists: seq<Chain>, entries: map<nat, Entry<V>>, index: map<nat, nat>,
                    i: int, p: nat, rest: Chain, next: map<nat, nat>, size': nat, heads': seq<nat>, lists': seq<Chain>, moved: set<nat>)
    requires Growing(hash, heads, lists, entries, index, i, p, rest, next, size', heads', lists', moved) && p != 0
    requires size == |lists| && forall j: nat, n: nat :: j < size && n in lists[j] ==> NodeOk(hash, size, entries, index, j, n)
    ensures p in entries && p in next
    ensures var h := Slot(hash, entries[p].key, size');
      Growing(hash, heads, lists, entries, index, i, next[p], rest[1..], next[p := heads'[h]], size', heads'[h := p],
              lists'[h := [p] + lists'[h]], moved + {p})
  {
    assert p in rest && p in lists[i] && NodeOk(hash, size, entries, index, i, p);
    var h := Slot(hash, entries[p].key, size');
    var next': map<nat, nat> := next[p := heads'[h]];
    assert Waiting(lists, i, rest, p);
    assert p !in rest[1..];
    assert forall n :: n in rest <==> n == p || n in rest[1..];
    ChainNodes(next, p, rest);
    ChainFrame(next, next', next[p], rest[1..]);
    forall j: nat | i < j < size ensures IsChain(next', heads[j], lists[j]) {
      assert IsChain(next, heads[j], lists[j]);
      assert p in lists[j] ==> NodeOk(hash, size, entries, index, j, p);
      ChainNodes(next, heads[j], lists[j]);
      ChainFrame(next, next', heads[j], lists[j]);
    }
    forall n ensures Waiting(lists, i, rest[1..], n) <==> Waiting(lists, i, rest, n) && n != p {
      forall j: nat | i < j < size ensures p !in lists[j] { assert p in lists[j] ==> NodeOk(hash, size, entries, index, j, p); }
    }
    var heads2, lists2 := heads'[h := p], lists'[h := [p] + lists'[h]];
    forall g: nat | g < size' ensures SlotOk(hash, size', next', entries, index, heads2[g], lists2[g], g) && forall n :: n in lists2[g] ==> n in moved + {p} {
      assert SlotOk(hash, size', next, entries, index, heads'[g], lists'[g], g);
      ChainNodes(next, heads'[g], lists'[g]);
      if g == h { ChainFront(next, heads'[h], lists'[h], p); } else { ChainFrame(next, next', heads'[g], lists'[g]); }
    }
  }

  /** The next old chain. */
  lemma GrowNext<V>(hash: (nat, nat) -> nat, heads: seq<nat>, lists: seq<Chain>, entries: map<nat, Entry<V>>, index: map<nat, nat>,
                    i: int, next: map<nat, nat>, size': nat, heads': seq<nat>, lists': seq<Chain>, moved: set<nat>)
    requires Growing(hash, heads, lists, entries, index, i, 0, [], next, size', heads', lists', moved) && i + 1 < |lists|
    requires Distinct(lists[i + 1])
    ensures Growing(hash, heads, lists, entries, index, i + 1, heads[i + 1], lists[i + 1], next, size', heads', lists', moved)
  {
    hide NewChainsOk;
    assert IsChain(next, heads[i + 1], lists[i + 1]);
    var first: nat := i + 1;
    forall n: nat ensures Waiting(lists, i, [], n) <==> Waiting(lists, i + 1, lists[i + 1], n) {
      if n in lists[first] { assert Waiting(lists, i, [], n); }
    }
  }

  /** When all chains have been moved, the new table holds every entry, in the chain for its hash. */
  lemma GrowDone<V>(hash: (nat, nat) -> nat, size: nat, heads: seq<nat>, lists: seq<Chain>, entries: map<nat, Entry<V>>, index: map<nat, nat>,
                    next: map<nat, nat>, size': nat, heads': seq<nat>, lists': seq<Chain>, moved: set<nat>)
    requires Growing(hash, heads, lists, entries, index, size - 1, 0, [], next, size', heads', lists', moved) && size == |lists|
    requires forall k: nat {:trigger KeyOk(hash, size, entries, index, lists, k)} :: k in index ==> KeyOk(hash, size, entries, index, lists, k)
    ensures TableOk(hash, size', heads', next, entries, lists', index)
  {
    forall k: nat | k in index ensures KeyOk(hash, size', entries, index, lists', k) {
      assert KeyOk(hash, size, entries, index, lists, k);
      assert !Waiting(lists, size - 1, [], index[k]);
    }
  }

  lemma GrowingEnds<V>(hash: (nat, nat) -> nat, heads: seq<nat>, lists: seq<Chain>, entries: map<nat, Entry<V>>, index: map<nat, nat>,
                       i: int, p: nat, rest: Chain, next: map<nat, nat>, size': nat, heads': seq<nat>, lists': seq<Chain>, moved: set<nat>)
    requires Growing(hash, heads, lists, entries, index, i, p, rest, next, size', heads', lists', moved)
    ensures p == 0 <==> rest == []
  {
  }

  lemma TableKeys<V>(hash: (nat, nat) -> nat, size: nat, heads: seq<nat>, next: map<nat, nat>,
                     entries: map<nat, Entry<V>>, lists: seq<Chain>, index: map<nat, nat>)
    requires TableOk(hash, size, heads, next, entries, lists, index)
    ensures forall k: nat {:trigger KeyOk(hash, size, entries, index, lists, k)} :: k in index ==> KeyOk(hash, size, entries, index, lists, k)
  {
  }

  function NoChains(n: nat): (l: seq<nat>)
    ensures |l| == n && forall i: nat :: i < n ==> l[i] == 0
  {
    seq(n, (i: nat) => 0)
  }

  ghost function NoLists(n: nat): (l: seq<Chain>)
    ensures |l| == n && forall i: nat :: i < n ==> l[i] == []
  {
    seq(n, (i: nat) => [])
  }

  lemma GrowStart<V>(hash: (nat, nat) -> nat, size: nat, heads: seq<nat>, lists: seq<Chain>, entries: map<nat, Entry<V>>,
                     index: map<nat, nat>, next: map<nat, nat>, size': nat)
    requires TableOk(hash, size, heads, next, entries, lists, index) && 0 < size'
    ensures Growing(hash, heads, lists, entries, index, -1, 0, [], next, size', NoChains(size'), NoLists(size'), {})
    ensures forall j: nat, n: nat :: j < size && n in lists[j] ==> NodeOk(hash, size, entries, index, j, n)
    ensures forall j: nat :: j < size ==> Distinct(lists[j])
  {
    forall j: nat | j < size
      ensures IsChain(next, heads[j], lists[j]) && Distinct(lists[j]) && forall n :: n in lists[j] ==> NodeOk(hash, size, entries, index, j, n)
    {
      assert SlotOk(hash, size, next, entries, index, heads[j], lists[j], j);
    }
    forall j: nat, n: nat | j < |lists| && n in lists[j] ensures Waiting(lists, -1, [], n) {}
  }

  // ---------- registration ----------

  /**
   * Where the memory for a new entry comes from: GC_INTERNAL_MALLOC; or the out-of-memory callback,
   * called without the lock, so that other registrations happen meanwhile; or nowhere.
   */
  datatype Alloc<V> = FromHeap | FromCallback(others: seq<Op<V>>) | NoMemory(others: seq<Op<V>>)

  datatype Op<V> = RegisterOp(key: nat, value: V, grow: bool, alloc: Alloc<V>) | UnregisterOp(key: nat)

  datatype Result = Registered | Duplicate | OutOfMemory

  /** What a registration makes of the finite map that the table is. */
  ghost function AfterRegister<V>(m: map<nat, V>, k: nat, v: V, a: Alloc<V>): map<nat, V>
    decreases a, 1, 0
  {
    if k in m || a.FromHeap? then m[k := v]
    else if a.FromCallback? then AfterOthers(m, a, |a.others|)[k := v]
    else AfterOthers(m, a, |a.others|)
  }

  /** ... and the first i of the operations that happen while the callback runs. */
  ghost function AfterOthers<V>(m: map<nat, V>, a: Alloc<V>, i: nat): map<nat, V>
    requires !a.FromHeap? && i <= |a.others|
    decreases a, 0, i
  {
    if i == 0 then m else AfterOp(AfterOthers(m, a, i - 1), a.others[i - 1])
  }

  ghost function AfterOp<V>(m: map<nat, V>, op: Op<V>): map<nat, V>
    decreases op, 0, 0
  {
    match op
    case RegisterOp(k, v, _, a) => AfterRegister(m, k, v, a)
    case UnregisterOp(k) => m - {k}
  }

  /** No other operation comes in between. */
  predicate Undisturbed<V>(a: Alloc<V>) { a.FromHeap? || a.others == [] }

  /** The number of chains after the table has grown. */
  ghost function Doubled(size: nat): nat { if size == 0 then 1 else 2 * size }

  /** A table grows if it has no chains, or more entries than chains, and there is memory. */
  ghost function GrownIfFull(size: nat, count: nat, memory: bool): nat {
    if memory && (size == 0 || size < count) then Doubled(size) else size
  }

  // ---------- sweeping ----------

  ghost predicate Kept<V>(entries: map<nat, Entry<V>>, drop: (nat, V) -> bool, n: nat) {
    n in entries && !drop(entries[n].key, entries[n].value)
  }

  /** The entries in `removed` left the table: each was there once, and `drop` held of it. */
  ghost predicate Swept<V>(m: map<nat, V>, drop: (nat, V) -> bool, removed: seq<Entry<V>>, m': map<nat, V>) {
    && (forall j, k :: 0 <= j < k < |removed| ==> removed[j].key != removed[k].key)
    && (forall e :: e in removed ==> e.key in m && m[e.key] == e.value && e.key !in m' && drop(e.key, e.value))
    && (forall k :: k in m' ==> k in m && m'[k] == m[k])
    && (forall k :: k in m && k !in m' ==> Entry(k, m[k]) in removed)
  }

  /** Nothing on the chains before i, and nothing in pre, is to be dropped. */
  ghost predicate DoneTo<V>(entries: map<nat, Entry<V>>, drop: (nat, V) -> bool, lists: seq<Chain>, i: nat, pre: Chain) {
    && (forall j: nat, n: nat :: j < i && j < |lists| && n in lists[j] ==> Kept(entries, drop, n))
    && forall n: nat :: n in pre ==> Kept(entries, drop, n)
  }

  lemma SweepStarts<V>(entries: map<nat, Entry<V>>, drop: (nat, V) -> bool, lists: seq<Chain>, m: map<nat, V>)
    ensures Swept(m, drop, [], m) && DoneTo(entries, drop, lists, 0, [])
  {
  }

  lemma SweepDrop<V>(entries: map<nat, Entry<V>>, index: map<nat, nat>, drop: (nat, V) -> bool, removed: seq<Entry<V>>, m: map<nat, V>, k: nat)
    requires Swept(m, drop, removed, MapOf(entries, index)) && k in index && index[k] in entries
    requires entries[index[k]].key == k && drop(k, entries[index[k]].value)
    ensures Swept(m, drop, removed + [entries[index[k]]], MapOf(entries, index) - {k})
  {
    var r, r' := removed, removed + [entries[index[k]]];
    assert forall e :: e in r' <==> e in r || e == entries[index[k]];
    forall j | 0 <= j < |r| ensures r[j].key != k { assert r[j] in r; }
  }

  lemma DoneAfterRemove<V>(hash: (nat, nat) -> nat, size: nat, heads: seq<nat>, next: map<nat, nat>, entries: map<nat, Entry<V>>,
                           lists: seq<Chain>, index: map<nat, nat>, drop: (nat, V) -> bool, i: nat, pre: Chain, rest: Chain)
    requires TableOk(hash, size, heads, next, entries, lists, index) && i < size && lists[i] == pre + rest && rest != []
    requires DoneTo(entries, drop, lists, i, pre)
    ensures DoneTo(entries - {rest[0]}, drop, lists[i := pre + rest[1..]], i, pre)
  {
    assert SlotOk(hash, size, next, entries, index, heads[i], lists[i], i);
    var c := rest[0];
    assert lists[i][|pre|] == c && c in lists[i] && NodeOk(hash, size, entries, index, i, c);
    forall n: nat | n in pre ensures Kept(entries - {c}, drop, n) {
      var j :| 0 <= j < |pre| && pre[j] == n;
      assert lists[i][j] == n;
    }
    forall j: nat, n: nat | j < i && n in lists[j] ensures Kept(entries - {c}, drop, n) {
      assert SlotOk(hash, size, next, entries, index, heads[j], lists[j], j);
      assert NodeOk(hash, size, entries, index, j, n) && Kept(entries, drop, n);
    }
  }

  lemma DoneKeep<V>(entries: map<nat, Entry<V>>, drop: (nat, V) -> bool, lists: seq<Chain>, i: nat, pre: Chain, n: nat)
    requires DoneTo(entries, drop, lists, i, pre) && n in entries && !drop(entries[n].key, entries[n].value)
    ensures DoneTo(entries, drop, lists, i, pre + [n])
  {
  }

  lemma DoneNext<V>(entries: map<nat, Entry<V>>, drop: (nat, V) -> bool, lists: seq<Chain>, i: nat, pre: Chain)
    requires DoneTo(entries, drop, lists, i, pre) && i < |lists| && lists[i] == pre
    ensures DoneTo(entries, drop, lists, i + 1, [])
  {
  }

  lemma SweepEnds<V>(hash: (nat, nat) -> nat, size: nat, heads: seq<nat>, next: map<nat, nat>, entries: map<nat, Entry<V>>,
                     lists: seq<Chain>, index: map<nat, nat>, drop: (nat, V) -> bool)
    requires TableOk(hash, size, heads, next, entries, lists, index) && DoneTo(entries, drop, lists, size, [])
    ensures forall k :: k in MapOf(entries, index) ==> !drop(k, MapOf(entries, index)[k])
  {
    forall k: nat | k in index ensures index[k] in entries && !drop(k, entries[index[k]].value) {
      assert KeyOk(hash, size, entries, index, lists, k);
      assert Kept(entries, drop, index[k]);
    }
  }

  lemma MapKeys<V>(hash: (nat, nat) -> nat, size: nat, heads: seq<nat>, next: map<nat, nat>, entries: map<nat, Entry<V>>,
                   lists: seq<Chain>, index: map<nat, nat>)
    requires TableOk(hash, size, heads, next, entries, lists, index)
    ensures forall c :: c in MapOf(entries, index) <==> c in index
    ensures |lists| == |heads| == size
  {
    forall c: nat | c in index ensures index[c] in entries { assert KeyOk(hash, size, entries, index, lists, c); }
  }

  lemma SlotIs<V>(hash: (nat, nat) -> nat, size: nat, heads: seq<nat>, next: map<nat, nat>, entries: map<nat, Entry<V>>,
                  lists: seq<Chain>, index: map<nat, nat>, i: nat)
    requires TableOk(hash, size, heads, next, entries, lists, index) && i < size
    ensures IsChain(next, heads[i], lists[i])
  {
    assert SlotOk(hash, size, next, entries, index, heads[i], lists[i], i);
  }

  /** The node the walk stands at. */
  lemma NodeAt<V>(hash: (nat, nat) -> nat, size: nat, heads: seq<nat>, next: map<nat, nat>, entries: map<nat, Entry<V>>,
                  lists: seq<Chain>, index: map<nat, nat>, i: nat, pre: Chain, rest: Chain)
    requires TableOk(hash, size, heads, next, entries, lists, index) && i < size && lists[i] == pre + rest && rest != []
    requires IsChain(next, rest[0], rest)
    ensures var n := rest[0];
      n in entries && n in next && entries[n].key in index && index[entries[n].key] == n && Slot(hash, entries[n].key, size) == i
    ensures pre + rest == (pre + [rest[0]]) + rest[1..]
  {
    assert SlotOk(hash, size, next, entries, index, heads[i], lists[i], i);
    assert rest[0] in lists[i] && NodeOk(hash, size, entries, index, i, rest[0]);
  }

  lemma FewerKeys(index: map<nat, nat>, k: nat)
    requires k in index
    ensures |index - {k}| == |index| - 1
  {
    assert (index - {k}).Keys == index.Keys - {k};
  }

  // ---------- listing ----------

  /** es lists the entries of the map, each once. */
  ghost predicate Listing<V>(es: seq<Entry<V>>, m: map<nat, V>) {
    && (forall j, k :: 0 <= j < k < |es| ==> es[j].key != es[k].key)
    && (forall e :: e in es ==> e.key in m && m[e.key] == e.value)
    && (forall k :: k in m ==> Entry(k, m[k]) in es)
  }

  /** The walk has met these nodes, all of them on chains before i or in pre. */
  ghost predicate Met<V>(hash: (nat, nat) -> nat, size: nat, entries: map<nat, Entry<V>>, index: map<nat, nat>,
                         lists: seq<Chain>, nodes: Chain, es: seq<Entry<V>>, i: nat, pre: Chain) {
    && |es| == |nodes| && Distinct(nodes)
    && (forall j :: 0 <= j < |nodes| ==> nodes[j] in entries && es[j] == entries[nodes[j]] && entries[nodes[j]].key in index
                                         && index[entries[nodes[j]].key] == nodes[j])
    && (forall n :: n in nodes ==> n in pre || exists j: nat :: j < i && j < |lists| && n in lists[j])
    && (forall j: nat, n: nat :: j < i && j < |lists| && n in lists[j] ==> n in nodes)
    && (forall n :: n in pre ==> n in nodes)
  }

  lemma MeetNode<V>(hash: (nat, nat) -> nat, size: nat, heads: seq<nat>, next: map<nat, nat>, entries: map<nat, Entry<V>>,
                    lists: seq<Chain>, index: map<nat, nat>, nodes: Chain, es: seq<Entry<V>>, i: nat, pre: Chain, rest: Chain)
    requires TableOk(hash, size, heads, next, entries, lists, index) && i < size && lists[i] == pre + rest && rest != []
    requires Met(hash, size, entries, index, lists, nodes, es, i, pre) && rest[0] in entries
    requires entries[rest[0]].key in index && index[entries[rest[0]].key] == rest[0]
    ensures Met(hash, size, entries, index, lists, nodes + [rest[0]], es + [entries[rest[0]]], i, pre + [rest[0]])
  {
    var c := rest[0];
    assert SlotOk(hash, size, next, entries, index, heads[i], lists[i], i);
    assert lists[i][|pre|] == c && c in lists[i] && NodeOk(hash, size, entries, index, i, c);
    forall j: nat | j < i ensures c !in lists[j] {
      assert SlotOk(hash, size, next, entries, index, heads[j], lists[j], j);
      assert c in lists[j] ==> NodeOk(hash, size, entries, index, j, c);
    }
    assert c !in pre by { assert forall j :: 0 <= j < |pre| ==> pre[j] == lists[i][j]; }
    assert c !in nodes;
  }

  lemma MetChain<V>(hash: (nat, nat) -> nat, size: nat, entries: map<nat, Entry<V>>, index: map<nat, nat>,
                    lists: seq<Chain>, nodes: Chain, es: seq<Entry<V>>, i: nat, pre: Chain)
    requires Met(hash, size, entries, index, lists, nodes, es, i, pre) && i < |lists| && lists[i] == pre
    ensures Met(hash, size, entries, index, lists, nodes, es, i + 1, [])
  {
  }

  lemma MetAll<V>(hash: (nat, nat) -> nat, size: nat, heads: seq<nat>, next: map<nat, nat>, entries: map<nat, Entry<V>>,
                  lists: seq<Chain>, index: map<nat, nat>, nodes: Chain, es: seq<Entry<V>>)
    requires TableOk(hash, size, heads, next, entries, lists, index) && Met(hash, size, entries, index, lists, nodes, es, size, [])
    ensures Listing(es, MapOf(entries, index))
  {
    var m := MapOf(entries, index);
    forall k | k in m ensures Entry(k, m[k]) in es {
      assert KeyOk(hash, size, entries, index, lists, k);
      var slot := Slot(hash, k, size);
      assert slot < size && index[k] in lists[slot] && index[k] in nodes;
      var j :| 0 <= j < |nodes| && nodes[j] == index[k];
      assert es[j] == Entry(k, m[k]);
    }
  }

  class Table<V(0)> {
    const hash: (nat, nat) -> nat
    var size: nat                    // 1 << log_size, or 0 before the first growth
    var heads: seq<nat>
    var next: map<nat, nat>
    var entries: map<nat, Entry<V>>
    var count: int                   // GC_dl_entries or GC_fo_entries
    var unused: nat                   // the next node memory will be found for
    ghost var lists: seq<Chain>
    ghost var index: map<nat, nat>   // the node of each key

    ghost predicate Ok() reads this { TableOk(hash, size, heads, next, entries, lists, index) }

    ghost predicate Valid() reads this {
      Ok() && count == |index| && 0 < unused && forall n :: n in entries ==> n < unused
    }

    /** The table as a finite map. */
    ghost function Contents(): map<nat, V> reads this { MapOf(entries, index) }

    constructor (hash: (nat, nat) -> nat)
      ensures Valid() && Contents() == map[] && size == 0 && this.hash == hash
    {
      this.hash := hash;
      size, heads, next, entries, count, unused := 0, [], map[], map[], 0, 1;
      lists, index := [], map[];
    }

    /** The walk along the chain of key k. */
    method Find(k: nat) returns (prev: nat, curr: nat, ghost pre: Chain, ghost rest: Chain)
      requires Ok() && 0 < size
      ensures lists[Slot(hash, k, size)] == pre + rest && prev == LastOf(pre)
      ensures IsChain(next, curr, rest) && (curr == 0 <==> rest == [])
      ensures curr == 0 <==> k !in index
      ensures curr != 0 ==> k in index && curr == index[k] == rest[0] && curr in entries && entries[curr].key == k && curr in next
    {
      var i := Slot(hash, k, size);
      prev, curr := 0, heads[i];
      pre, rest := [], lists[i];
      assert SlotOk(hash, size, next, entries, index, heads[i], lists[i], i);
      ChainNodes(next, curr, rest);
      while curr != 0 && entries[curr].key != k
        invariant lists[i] == pre + rest && prev == LastOf(pre)
        invariant IsChain(next, curr, rest)
        invariant forall n :: n in pre ==> n in entries && entries[n].key != k
        invariant forall n :: n in rest ==> n in entries
        decreases |rest|
      {
        assert curr in rest && pre + rest == (pre + [curr]) + rest[1..];
        prev, curr := curr, next[curr];
        pre, rest := pre + [prev], rest[1..];
      }
      if curr == 0 {
        assert k in index ==> KeyOk(hash, size, entries, index, lists, k);
      } else {
        assert curr in lists[i];
        assert NodeOk(hash, size, entries, index, i, curr);
      }
    }

    /** A new entry goes to the front of its chain. */
    method Insert(n: nat, k: nat, v: V)
      requires Valid() && 0 < size && k !in index && n != 0 && n !in entries && n < unused
      modifies this`heads, this`next, this`entries, this`count, this`lists, this`index
      ensures Valid() && index == old(index)[k := n] && entries == old(entries)[n := Entry(k, v)]
      ensures var i := Slot(hash, k, size); i < |old(lists)| && lists == old(lists)[i := [n] + old(lists)[i]]
    {
      var i := Slot(hash, k, size);
      InsertOk(hash, size, heads, next, entries, lists, index, n, k, v);
      entries := entries[n := Entry(k, v)];
      next := next[n := heads[i]];
      heads := heads[i := n];
      count := count + 1;
      lists := lists[i := [n] + lists[i]];
      index := index[k := n];
    }

    /** The node curr of chain i, behind prev, is taken out. */
    method Unlink(i: nat, prev: nat, curr: nat, ghost pre: Chain)
      requires i < |heads| && curr in next && prev == LastOf(pre) && (pre != [] ==> prev != 0)
      modifies this`heads, this`next
      ensures heads == (if pre == [] then old(heads)[i := old(next)[curr]] else old(heads))
      ensures next == Unlinked(old(next), pre, old(next)[curr])
    {
      if prev == 0 {
        heads := heads[i := next[curr]];
      } else {
        next := next[prev := next[curr]];
      }
    }

    /** The entry found for key k leaves its chain. */
    method Remove(k: nat, prev: nat, curr: nat, ghost pre: Chain, ghost rest: Chain)
      requires Valid() && 0 < size && lists[Slot(hash, k, size)] == pre + rest && prev == LastOf(pre)
      requires k in index && rest != [] && rest[0] == curr == index[k] && curr in next
      modifies this`heads, this`next, this`entries, this`count, this`lists, this`index
      ensures Valid() && index == old(index) - {k} && entries == old(entries) - {curr}
      ensures lists == old(lists)[Slot(hash, k, size) := pre + rest[1..]] && IsChain(next, old(next)[curr], rest[1..])
      ensures Contents() == old(Contents()) - {k}
    {
      var i := Slot(hash, k, size);
      RemoveOk(hash, size, heads, next, entries, lists, index, k, pre, rest);
      ghost var heads0, next0, entries0, lists0, index0 := heads, next, entries, lists, index;
      hide TableOk, MapOf, IsChain, Slot, Unlinked, LastOf;
      Unlink(i, prev, curr, pre);
      count := count - 1;
      entries := entries - {curr};
      lists := lists[i := pre + rest[1..]];
      index := index - {k};
      FewerKeys(index0, k);
      MapKeys(hash, size, heads0, next0, entries0, lists0, index0);
      MapChanges(hash, size, heads0, next0, entries0, lists0, index0, k, curr, entries0[curr].value);
    }

    /**
     * GC_grow_table: the table doubles, or gets its first chain, if memory can be had.  The set of
     * entries stays the same.  It aborts if there is no table and no memory for one.
     */
    method Grow(memory: bool) returns (aborted: bool)
      requires Valid()
      modifies this`size, this`heads, this`next, this`lists
      ensures Valid() && (aborted <==> !memory && old(size) == 0)
      ensures size == if memory then Doubled(old(size)) else old(size)
    {
      if !memory { return heads == []; }
      var newSize := if size == 0 then 1 else 2 * size;
      var newTable := NoChains(newSize);
      ghost var newLists, moved := NoLists(newSize), {};
      GrowStart(hash, size, heads, lists, entries, index, next, newSize);
      hide Growing, TableOk;
      var i := 0;
      while i < size
        modifies this`next
        invariant i <= size == |heads| == |lists| && |newTable| == |newLists| == newSize
        invariant Growing(hash, heads, lists, entries, index, i - 1, 0, [], next, newSize, newTable, newLists, moved)
      {
        GrowNext(hash, heads, lists, entries, index, i - 1, next, newSize, newTable, newLists, moved);
        var p := heads[i];
        ghost var rest := lists[i];
        while p != 0
          modifies this`next
          invariant |newTable| == |newLists| == newSize && (p != 0 ==> rest != [])
          invariant Growing(hash, heads, lists, entries, index, i, p, rest, next, newSize, newTable, newLists, moved)
          invariant p == 0 ==> rest == []
          decreases |rest|
        {
          GrowStep(hash, size, heads, lists, entries, index, i, p, rest, next, newSize, newTable, newLists, moved);
          var following := next[p];
          var h := Slot(hash, entries[p].key, newSize);
          next := next[p := newTable[h]];
          newTable := newTable[h := p];
          newLists := newLists[h := [p] + newLists[h]];
          moved := moved + {p};
          p, rest := following, rest[1..];
          GrowingEnds(hash, heads, lists, entries, index, i, p, rest, next, newSize, newTable, newLists, moved);
        }
        i := i + 1;
      }
      TableKeys(hash, size, heads, old(next), entries, lists, index);
      GrowDone(hash, size, heads, lists, entries, index, next, newSize, newTable, newLists, moved);
      size, heads, lists := newSize, newTable, newLists;
      aborted := false;
    }

    // ---------- registration ----------

    /** The table grows when it holds more entries than chains. */
    method GrowIfFull(memory: bool) returns (aborted: bool)
      requires Valid()
      modifies this`size, this`heads, this`next, this`lists
      ensures Valid() && Contents() == old(Contents()) && (aborted <==> !memory && old(size) == 0) && (!aborted ==> 0 < size)
      ensures size == GrownIfFull(old(size), old(count), memory)
    {
      aborted := false;
      if size == 0 || count > size { aborted := Grow(memory); }
    }

    /** The value of a registered key is replaced. */
    method Update(k: nat, n: nat, v: V)
      requires Valid() && k in index && index[k] == n && n in entries && entries[n].key == k
      modifies this`entries
      ensures Valid() && Contents() == old(Contents())[k := v]
    {
      UpdateOk(hash, size, heads, next, entries, lists, index, n, v);
      MapChanges(hash, size, heads, next, entries, lists, index, k, n, v);
      hide TableOk, MapOf;
      entries := entries[n := Entry(k, v)];
    }

    /** A key that is not registered gets an entry of its own. */
    method Add(k: nat, v: V)
      requires Valid() && 0 < size && k !in index
      modifies this`heads, this`next, this`entries, this`count, this`lists, this`index, this`unused
      ensures Valid() && Contents() == old(Contents())[k := v]
    {
      var n := unused;
      MapChanges(hash, size, heads, next, entries, lists, index, k, n, v);
      hide TableOk, MapOf;
      unused := unused + 1;
      Insert(n, k, v);
    }

    /** GC_general_register_disappearing_link and GC_register_finalizer_inner, once the table has room. */
    method Register(k: nat, v: V, a: Alloc<V>) returns (r: Result)
      requires Valid() && 0 < size
      modifies this
      ensures Valid() && 0 < size && Contents() == AfterRegister(old(Contents()), k, v, a)
      ensures k in old(Contents()) ==> r == Duplicate
      ensures k !in old(Contents()) ==> (r == OutOfMemory <==> a.NoMemory?) && (a.FromHeap? ==> r == Registered)
      ensures k !in old(Contents()) && a.FromCallback? ==>
        (r == Duplicate <==> k in AfterOthers(old(Contents()), a, |a.others|))
      ensures k in old(Contents()) || Undisturbed(a) ==> size == old(size)
      decreases a, 1, 0
    {
      var prev, curr; ghost var pre, rest;
      MapChanges(hash, size, heads, next, entries, lists, index, k, 0, v);
      prev, curr, pre, rest := Find(k);
      if curr != 0 {
        Update(k, curr, v);
        return Duplicate;
      }
      match a {
        case FromHeap => Add(k, v); return Registered;
        case NoMemory(others) => RunOthers(a); return OutOfMemory;
        case FromCallback(others) =>
          RunOthers(a);
          MapChanges(hash, size, heads, next, entries, lists, index, k, 0, v);
          prev, curr, pre, rest := Find(k);
          if curr != 0 {
            Update(k, curr, v);
            return Duplicate;
          }
          Add(k, v);
          return Registered;
      }
    }

    /** What other threads, and the callback itself, do to the table while the lock is not held. */
    method RunOthers(a: Alloc<V>)
      requires Valid() && 0 < size && !a.FromHeap?
      modifies this
      ensures Valid() && 0 < size && Contents() == AfterOthers(old(Contents()), a, |a.others|)
      ensures Undisturbed(a) ==> size == old(size)
      decreases a, 0, 0
    {
      hide TableOk, MapOf, AfterRegister;
      for i := 0 to |a.others|
        invariant Valid() && 0 < size && Contents() == AfterOthers(old(Contents()), a, i) && (i == 0 ==> size == old(size))
      {
        var op := a.others[i];
        match op {
          case RegisterOp(k, v, grow, b) =>
            var aborted := GrowIfFull(grow);
            var r := Register(k, v, b);
          case UnregisterOp(k) =>
            var found := Unregister(k);
        }
      }
    }

    /** Whether key k is registered. */
    method Has(k: nat) returns (found: bool)
      requires Valid() && 0 < size
      ensures found <==> k in Contents()
    {
      MapKeys(hash, size, heads, next, entries, lists, index);
      var prev, curr; ghost var pre, rest;
      prev, curr, pre, rest := Find(k);
      return curr != 0;
    }

    /** GC_unregister_disappearing_link, and GC_register_finalizer_inner without a function. */
    method Unregister(k: nat) returns (found: bool)
      requires Valid() && 0 < size
      modifies this`heads, this`next, this`entries, this`count, this`lists, this`index
      ensures Valid() && Contents() == old(Contents()) - {k} && (found <==> k in old(Contents()))
    {
      var prev, curr; ghost var pre, rest;
      prev, curr, pre, rest := Find(k);
      MapKeys(hash, size, heads, next, entries, lists, index);
      if curr == 0 { return false; }
      Remove(k, prev, curr, pre, rest);
      return true;
    }

    // ---------- sweeping ----------

    /**
     * The walks of GC_finalize over all chains: entries that `drop` holds of leave the table.  They are
     * returned in the order in which they leave.
     */
    method RemoveWhere(drop: (nat, V) -> bool) returns (removed: seq<Entry<V>>)
      requires Valid()
      modifies this`heads, this`next, this`entries, this`count, this`lists, this`index
      ensures Valid() && Swept(old(Contents()), drop, removed, Contents())
      ensures forall k :: k in Contents() ==> !drop(k, Contents()[k])
    {
      removed := [];
      MapKeys(hash, size, heads, next, entries, lists, index);
      SweepStarts(entries, drop, lists, Contents());
      hide TableOk, MapOf, Swept, DoneTo, Kept;
      var i := 0;
      while i < size
        invariant Valid() && i <= size == |lists| == |heads| && Swept(old(Contents()), drop, removed, Contents())
        invariant DoneTo(entries, drop, lists, i, [])
        decreases size - i
      {
        var curr := heads[i];
        SlotIs(hash, size, heads, next, entries, lists, index, i);
        ghost var rest := lists[i];
        removed := SweepChain(drop, i, curr, removed, rest, old(Contents()));
        i := i + 1;
      }
      SweepEnds(hash, size, heads, next, entries, lists, index, drop);
    }

    /** The walk along chain i. */
    method SweepChain(drop: (nat, V) -> bool, i: nat, head: nat, removed0: seq<Entry<V>>, ghost chain: Chain, ghost m: map<nat, V>)
      returns (removed: seq<Entry<V>>)
      requires Valid() && i < size == |lists| == |heads| && lists[i] == chain && IsChain(next, head, chain)
      requires Swept(m, drop, removed0, Contents()) && DoneTo(entries, drop, lists, i, [])
      modifies this`heads, this`next, this`entries, this`count, this`lists, this`index
      ensures Valid() && |lists| == |heads| == size && Swept(m, drop, removed, Contents()) && DoneTo(entries, drop, lists, i + 1, [])
    {
      removed := removed0;

      var prev, curr := 0, head;
      ghost var pre, rest := [], chain;
      assert LastOf(pre) == 0;
      hide TableOk, MapOf, Swept, DoneTo, Kept, LastOf;
      while curr != 0
        invariant Valid() && i < size == |lists| == |heads| && Swept(m, drop, removed, Contents())
        invariant DoneTo(entries, drop, lists, i, pre)
        invariant lists[i] == pre + rest && prev == LastOf(pre)
        invariant IsChain(next, curr, rest)
        decreases |rest|
      {
        NodeAt(hash, size, heads, next, entries, lists, index, i, pre, rest);
        var following := next[curr];
        var e := entries[curr];
        if drop(e.key, e.value) {
          SweepDrop(entries, index, drop, removed, m, e.key);
          DoneAfterRemove(hash, size, heads, next, entries, lists, index, drop, i, pre, rest);
          removed := removed + [e];
          Remove(e.key, prev, curr, pre, rest);
          MapKeys(hash, size, heads, next, entries, lists, index);
          rest := rest[1..];
        } else {
          DoneKeep(entries, drop, lists, i, pre, curr);
          LastAppend(pre, curr);
          prev, pre, rest := curr, pre + [curr], rest[1..];
        }
        curr := following;
      }
      assert pre + rest == pre;
      DoneNext(entries, drop, lists, i, pre);
    }

    /** The entries in the order in which the loops of GC_finalize meet them. */
    method Traverse() returns (es: seq<Entry<V>>)
      requires Valid()
      ensures Listing(es, Contents())
    {
      es := [];
      ghost var nodes: Chain := [];
      MapKeys(hash, size, heads, next, entries, lists, index);
      assert Met(hash, size, entries, index, lists, nodes, es, 0, []);
      hide TableOk, Met, MapOf;
      for i := 0 to size
        invariant Met(hash, size, entries, index, lists, nodes, es, i, [])
      {
        SlotIs(hash, size, heads, next, entries, lists, index, i);
        var curr := heads[i];
        ghost var pre, rest := [], lists[i];
        while curr != 0
          invariant Met(hash, size, entries, index, lists, nodes, es, i, pre)
          invariant lists[i] == pre + rest && IsChain(next, curr, rest)
          decreases |rest|
        {
          NodeAt(hash, size, heads, next, entries, lists, index, i, pre, rest);
          MeetNode(hash, size, heads, next, entries, lists, index, nodes, es, i, pre, rest);
          es, nodes := es + [entries[curr]], nodes + [curr];
          pre, rest := pre + [curr], rest[1..];
          curr := next[curr];
        }
        assert pre + rest == pre;
        MetChain(hash, size, entries, index, lists, nodes, es, i, pre);
      }
      MetAll(hash, size, heads, next, entries, lists, index, nodes, es);
    }
  }
}
