/** Least-recently-used caching on values: what a sequence of operations leaves behind. */
module RecencyLists {
  import opened Collections

  datatype Option<T> = None | Some(value: T)

  datatype Entry<K, V> = Entry(key: K, value: V)

  datatype Op<K, V> = Get(key: K) | Put(key: K, value: V)

  // ---------- the list, most recent entry first

  /** Where a key is; the length of the list when it is absent. */
  function IndexOf<K(==), V>(l: seq<Entry<K, V>>, k: K): (i: nat)
    ensures i <= |l|
    ensures i < |l| ==> l[i].key == k
    ensures forall j :: 0 <= j < i ==> l[j].key != k
  {
    if l == [] || l[0].key == k then 0 else 1 + IndexOf(l[1..], k)
  }

  predicate Has<K(==), V>(l: seq<Entry<K, V>>, k: K) { IndexOf(l, k) < |l| }

  /** A hit moves the entry to the front; a miss changes nothing. */
  function AfterGet<K(==), V>(l: seq<Entry<K, V>>, k: K): seq<Entry<K, V>> {
    var i := IndexOf(l, k);
    if i < |l| then [l[i]] + Removed(l, i) else l
  }

  /** A known key gets its new value and moves to the front. A new key makes room for
      itself at the back when the list is full. */
  function AfterPut<K(==), V>(l: seq<Entry<K, V>>, capacity: nat, k: K, v: V): seq<Entry<K, V>> {
    var i := IndexOf(l, k);
    if i < |l| then [Entry(k, v)] + Removed(l, i)
    else if |l| == capacity && l != [] then [Entry(k, v)] + l[..|l| - 1]
    else [Entry(k, v)] + l
  }

  function After<K(==), V>(l: seq<Entry<K, V>>, capacity: nat, op: Op<K, V>): seq<Entry<K, V>> {
    match op
    case Get(k) => AfterGet(l, k)
    case Put(k, v) => AfterPut(l, capacity, k, v)
  }

  /** The list that a trace leads to, from the empty cache. */
  function Reached<K(==), V>(ops: seq<Op<K, V>>, capacity: nat): seq<Entry<K, V>> {
    if ops == [] then [] else After(Reached(ops[..|ops| - 1], capacity), capacity, ops[|ops| - 1])
  }

  function Answer<K(==), V>(l: seq<Entry<K, V>>, k: K): Option<V> {
    var i := IndexOf(l, k);
    if i < |l| then Some(l[i].value) else None
  }

  // ---------- every reachable list

  ghost predicate Distinct<K, V>(l: seq<Entry<K, V>>) {
    forall i, j :: 0 <= i < j < |l| ==> l[i].key != l[j].key
  }

  lemma OnlyOne<K, V>(l: seq<Entry<K, V>>, i: nat)
    requires Distinct(l) && i < |l|
    ensures IndexOf(l, l[i].key) == i
  {}

  lemma RemovedDistinct<K, V>(l: seq<Entry<K, V>>, i: nat)
    requires Distinct(l) && i < |l|
    ensures Distinct(Removed(l, i))
    ensures forall j :: 0 <= j < |l| - 1 ==> Removed(l, i)[j].key != l[i].key
  {}

  lemma StepDistinct<K, V>(l: seq<Entry<K, V>>, capacity: nat, op: Op<K, V>)
    requires Distinct(l) && |l| <= capacity && capacity >= 1
    ensures Distinct(After(l, capacity, op)) && |After(l, capacity, op)| <= capacity
  {
    var i := IndexOf(l, op.key);
    if i < |l| {
      RemovedDistinct(l, i);
    }
  }

  lemma {:induction false} ReachedDistinct<K, V>(ops: seq<Op<K, V>>, capacity: nat)
    requires capacity >= 1
    ensures Distinct(Reached(ops, capacity)) && |Reached(ops, capacity)| <= capacity
  {
    if ops == [] {
    } else {
      var n := |ops| - 1;
      ReachedDistinct(ops[..n], capacity);
      StepDistinct(Reached(ops[..n], capacity), capacity, ops[n]);
    }
  }

  /** The value of the last put of a key, however long ago. */
  function LatestPut<K(==), V>(ops: seq<Op<K, V>>, k: K): Option<V> {
    if ops == [] then None
    else
      var op := ops[|ops| - 1];
      if op.Put? && op.key == k then Some(op.value) else LatestPut(ops[..|ops| - 1], k)
  }

  /** Every entry, and so every hit, holds the value of the latest put of its key. */
  lemma {:induction false} EntryIsLatestPut<K, V>(ops: seq<Op<K, V>>, capacity: nat, e: Entry<K, V>)
    requires capacity >= 1 && e in Reached(ops, capacity)
    ensures LatestPut(ops, e.key) == Some(e.value)
  {
    var n := |ops| - 1;
    var l := Reached(ops[..n], capacity);
    var op := ops[n];
    ReachedDistinct(ops[..n], capacity);
    if op.Put? && e.key == op.key {
      ReachedDistinct(ops, capacity);
      assert Reached(ops, capacity)[0] == Entry(op.key, op.value);
    } else {
      assert e in l;
      EntryIsLatestPut(ops[..n], capacity, e);
    }
  }

  // ---------- recency

  /** Whether an operation uses a key that it finds or creates; a missed get does not. */
  predicate Touches<K(==), V>(l: seq<Entry<K, V>>, op: Op<K, V>, k: K) {
    op.key == k && (op.Put? || Has(l, k))
  }

  /** When a key was last used: the number of the operation, or -1. */
  function LastTouch<K(==), V>(ops: seq<Op<K, V>>, capacity: nat, k: K): (t: int)
    ensures -1 <= t < |ops|
  {
    if ops == [] then -1
    else
      var n := |ops| - 1;
      if Touches(Reached(ops[..n], capacity), ops[n], k) then n else LastTouch(ops[..n], capacity, k)
  }

  ghost predicate MostRecentFirst<K, V>(l: seq<Entry<K, V>>, ops: seq<Op<K, V>>, capacity: nat) {
    forall i, j :: 0 <= i < j < |l| ==> LastTouch(ops, capacity, l[i].key) > LastTouch(ops, capacity, l[j].key)
  }

  /** The list is ordered by last use, whatever the trace. */
  lemma {:induction false} ReachedOrdered<K, V>(ops: seq<Op<K, V>>, capacity: nat)
    requires capacity >= 1
    ensures MostRecentFirst(Reached(ops, capacity), ops, capacity)
  {
    if ops == [] {
    } else {
      var n := |ops| - 1;
      var l := Reached(ops[..n], capacity);
      ReachedDistinct(ops[..n], capacity);
      ReachedOrdered(ops[..n], capacity);
      StepOrdered(ops, capacity, l);
    }
  }

  /** Where the entry now at `j` was before; entries keep their order. */
  function Origin<K(==), V>(l: seq<Entry<K, V>>, op: Op<K, V>, j: nat): nat {
    var p := IndexOf(l, op.key);
    if p == |l| && op.Get? then j else if j == 0 then p else if j <= p then j - 1 else j
  }

  lemma OriginOf<K, V>(l: seq<Entry<K, V>>, capacity: nat, op: Op<K, V>, j: nat)
    requires Distinct(l) && j < |After(l, capacity, op)|
    ensures j > 0 || !Touches(l, op, After(l, capacity, op)[j].key) ==>
              && Origin(l, op, j) < |l|
              && After(l, capacity, op)[j].key == l[Origin(l, op, j)].key
              && !Touches(l, op, l[Origin(l, op, j)].key)
  {}

  lemma StepOrdered<K, V>(ops: seq<Op<K, V>>, capacity: nat, l: seq<Entry<K, V>>)
    requires ops != [] && capacity >= 1
    requires l == Reached(ops[..|ops| - 1], capacity) && Distinct(l)
    requires MostRecentFirst(l, ops[..|ops| - 1], capacity)
    ensures MostRecentFirst(Reached(ops, capacity), ops, capacity)
  {
    var n := |ops| - 1;
    var op, l' := ops[n], After(l, capacity, ops[n]);
    forall i, j | 0 <= i < j < |l'|
      ensures LastTouch(ops, capacity, l'[i].key) > LastTouch(ops, capacity, l'[j].key)
    {
      OriginOf(l, capacity, op, i);
      OriginOf(l, capacity, op, j);
      LaterTouch(ops, capacity, l'[i].key, l'[j].key, l, Origin(l, op, i), Origin(l, op, j));
    }
  }

  lemma LaterTouch<K, V>(ops: seq<Op<K, V>>, capacity: nat, k: K, k': K, l: seq<Entry<K, V>>, p: nat, p': nat)
    requires ops != [] && l == Reached(ops[..|ops| - 1], capacity)
    requires MostRecentFirst(l, ops[..|ops| - 1], capacity)
    requires p' < |l| && l[p'].key == k' && !Touches(l, ops[|ops| - 1], k')
    requires Touches(l, ops[|ops| - 1], k) || (p < p' && l[p].key == k)
    ensures LastTouch(ops, capacity, k) > LastTouch(ops, capacity, k')
  {
    var before := ops[..|ops| - 1];
    assert LastTouch(ops, capacity, k') == LastTouch(before, capacity, k');
  }

  lemma KeyStays<K, V>(l: seq<Entry<K, V>>, capacity: nat, op: Op<K, V>, i: nat)
    requires Distinct(l) && |l| <= capacity && i < |l|
    ensures Has(After(l, capacity, op), l[i].key)
       <==> !(op.Put? && !Has(l, op.key) && |l| == capacity && i == |l| - 1)
  {
    var l' := After(l, capacity, op);
    StepDistinct(l, capacity, op);
    if op.Put? && !Has(l, op.key) && |l| == capacity {
      if i < |l| - 1 {
        assert l'[i + 1] == l[i];
      }
    } else {
      var p := IndexOf(l, op.key);
      var i' := if p == |l| then (if op.Put? then i + 1 else i) else if i == p then 0 else if i < p then i + 1 else i;
      assert l'[i'].key == l[i].key;
    }
  }

  /** Every other key of the list was used after this one. */
  ghost predicate UsedFirst<K, V>(l: seq<Entry<K, V>>, ops: seq<Op<K, V>>, capacity: nat, k: K) {
    forall i :: 0 <= i < |l| && l[i].key != k ==> LastTouch(ops, capacity, k) < LastTouch(ops, capacity, l[i].key)
  }

  lemma UsedFirstIsLast<K, V>(l: seq<Entry<K, V>>, ops: seq<Op<K, V>>, capacity: nat, i: nat)
    requires Distinct(l) && MostRecentFirst(l, ops, capacity) && i < |l|
    ensures UsedFirst(l, ops, capacity, l[i].key) <==> i == |l| - 1
  {
    if i < |l| - 1 {
      assert LastTouch(ops, capacity, l[i].key) > LastTouch(ops, capacity, l[i + 1].key);
    }
  }

  /** Keys leave the cache in one way only: a put of a new key into a full cache evicts one
      key, and that key was used before every other one. */
  lemma Eviction<K, V>(ops: seq<Op<K, V>>, capacity: nat, op: Op<K, V>, k: K)
    requires capacity >= 1
    ensures var l := Reached(ops, capacity);
            var gone := Has(l, k) && !Has(After(l, capacity, op), k);
            gone <==>
            && op.Put? && !Has(l, op.key) && |l| == capacity
            && Has(l, k) && UsedFirst(l, ops, capacity, k)
  {
    var l := Reached(ops, capacity);
    ReachedDistinct(ops, capacity);
    ReachedOrdered(ops, capacity);
    if Has(l, k) {
      var i := IndexOf(l, k);
      KeyStays(l, capacity, op, i);
      UsedFirstIsLast(l, ops, capacity, i);
    }
  }

  // ---------- inclusion

  /** `small` can be had from `large` by leaving out entries. */
  ghost predicate Within<T>(small: seq<T>, large: seq<T>) {
    || small == []
    || (large != [] && (if small[0] == large[0] then Within(small[1..], large[1..]) else Within(small, large[1..])))
  }

  lemma {:induction false} WithinLength<T>(small: seq<T>, large: seq<T>)
    requires Within(small, large)
    ensures |small| <= |large|
    ensures |small| == |large| ==> small == large
  {
    if small == [] {
    } else {
      if small[0] == large[0] {
        WithinLength(small[1..], large[1..]);
        assert small == [small[0]] + small[1..] && large == [large[0]] + large[1..];
      } else {
        WithinLength(small, large[1..]);
      }
    }
  }

  lemma {:induction false} WithinMember<T>(small: seq<T>, large: seq<T>, x: T)
    requires Within(small, large) && x in small
    ensures x in large
  {
    if small[0] == large[0] {
      if x != small[0] {
        WithinMember(small[1..], large[1..], x);
      }
    } else {
      WithinMember(small, large[1..], x);
    }
  }

  lemma {:induction false} WithinMore<T>(small: seq<T>, large: seq<T>, x: T)
    requires Within(small, large)
    requires x !in small
    ensures Within(small, [x] + large)
  {
    assert ([x] + large)[1..] == large;
  }

  /** Leaving out the last entry on both sides, or on the left one only. */
  lemma {:induction false} WithinInit<T>(small: seq<T>, large: seq<T>)
    requires Within(small, large) && small != []
    ensures Within(small[..|small| - 1], large[..|large| - 1])
    ensures Within(small[..|small| - 1], large)
  {
    WithinLength(small, large);
    if |small| <= 1 {
    } else {
      if small[0] == large[0] {
        WithinInit(small[1..], large[1..]);
        WithinLength(small[1..], large[1..]);
        assert small[..|small| - 1][1..] == small[1..][..|small| - 2];
        assert large[..|large| - 1][1..] == large[1..][..|large| - 2];
      } else {
        WithinInit(small, large[1..]);
        WithinLength(small, large[1..]);
        assert large[..|large| - 1][1..] == large[1..][..|large| - 2];
      }
    }
  }

  /** Leaving out an entry of the right that the left does not have. */
  lemma {:induction false} WithinDropRight<T>(small: seq<T>, large: seq<T>, j: nat)
    requires Within(small, large) && j < |large| && large[j] !in small
    ensures Within(small, Removed(large, j))
  {
    if small == [] {
    } else {
      var rest := Removed(large, j);
      if j == 0 {
        assert rest == large[1..];
      } else {
        assert rest[1..] == Removed(large[1..], j - 1);
        WithinDropRight(if small[0] == large[0] then small[1..] else small, large[1..], j - 1);
      }
    }
  }

  ghost predicate Unique<T>(s: seq<T>) {
    s == [] || (s[0] !in s[1..] && Unique(s[1..]))
  }

  lemma {:induction false} DistinctUnique<K, V>(l: seq<Entry<K, V>>)
    requires Distinct(l)
    ensures Unique(l)
  {
    if l == [] {
    } else {
      DistinctUnique(l[1..]);
    }
  }

  /** Leaving out the same entry on both sides. */
  lemma {:induction false} WithinDropBoth<T>(small: seq<T>, large: seq<T>, i: nat, j: nat)
    requires Within(small, large) && Unique(small) && Unique(large)
    requires i < |small| && j < |large| && small[i] == large[j]
    ensures Within(Removed(small, i), Removed(large, j))
  {
    var s, t := Removed(small, i), Removed(large, j);
    if small[0] == large[0] {
      assert i > 0 ==> small[i] in small[1..];
      assert j > 0 ==> large[j] in large[1..];
      if i == 0 {
        assert s == small[1..] && t == large[1..];
      } else {
        WithinDropBoth(small[1..], large[1..], i - 1, j - 1);
        assert s[1..] == Removed(small[1..], i - 1) && t[1..] == Removed(large[1..], j - 1);
      }
    } else if j == 0 {
      WithinMember(small, large[1..], small[i]);
    } else {
      WithinDropBoth(small, large[1..], i, j - 1);
      if large[0] in small {
        WithinMember(small, large[1..], large[0]);
      }
      assert t == [large[0]] + Removed(large[1..], j - 1);
      WithinMore(s, Removed(large[1..], j - 1), large[0]);
    }
  }

  /** What holds between two caches of capacities `c <= c'` in lock-step. */
  ghost predicate Included<K, V>(small: seq<Entry<K, V>>, large: seq<Entry<K, V>>, c: nat, c': nat) {
    && Within(small, large)
    && Distinct(small) && Distinct(large)
    && |small| <= c && |large| <= c'
    && (|small| == c || small == large)
  }

  lemma IncludedKey<K, V>(small: seq<Entry<K, V>>, large: seq<Entry<K, V>>, k: K)
    requires Within(small, large) && Distinct(small) && Distinct(large)
    ensures Has(small, k) ==> Has(large, k) && small[IndexOf(small, k)] == large[IndexOf(large, k)]
    ensures Answer(small, k).Some? ==> Answer(large, k) == Answer(small, k)
  {
    if Has(small, k) {
      var e := small[IndexOf(small, k)];
      WithinMember(small, large, e);
      var j :| 0 <= j < |large| && large[j] == e;
      OnlyOne(large, j);
    }
  }

  lemma WithinFront<T>(small: seq<T>, large: seq<T>, x: T)
    requires Within(small, large)
    ensures Within([x] + small, [x] + large)
  {
    assert ([x] + small)[1..] == small && ([x] + large)[1..] == large;
  }

  lemma DroppedBoth<K, V>(small: seq<Entry<K, V>>, large: seq<Entry<K, V>>, k: K)
    requires Within(small, large) && Distinct(small) && Distinct(large)
    requires Has(small, k)
    ensures Has(large, k) && Within(Removed(small, IndexOf(small, k)), Removed(large, IndexOf(large, k)))
  {
    IncludedKey(small, large, k);
    DistinctUnique(small);
    DistinctUnique(large);
    WithinDropBoth(small, large, IndexOf(small, k), IndexOf(large, k));
  }

  lemma IncludedGet<K, V>(small: seq<Entry<K, V>>, large: seq<Entry<K, V>>, c: nat, c': nat, k: K)
    requires Included(small, large, c, c')
    ensures Within(AfterGet(small, k), AfterGet(large, k))
  {
    var i, j := IndexOf(small, k), IndexOf(large, k);
    if i < |small| {
      IncludedKey(small, large, k);
      DroppedBoth(small, large, k);
      WithinFront(Removed(small, i), Removed(large, j), small[i]);
    } else if j < |large| {
      WithinDropRight(small, large, j);
      WithinMore(small, Removed(large, j), large[j]);
    }
  }

  lemma IncludedPut<K, V>(small: seq<Entry<K, V>>, large: seq<Entry<K, V>>, c: nat, c': nat, k: K, v: V)
    requires Included(small, large, c, c') && 1 <= c <= c'
    ensures Within(AfterPut(small, c, k, v), AfterPut(large, c', k, v))
  {
    var i, j, e := IndexOf(small, k), IndexOf(large, k), Entry(k, v);
    if i < |small| {
      DroppedBoth(small, large, k);
      WithinFront(Removed(small, i), Removed(large, j), e);
    } else if j < |large| {
      WithinInit(small, large);
      WithinDropRight(small, large, j);
      WithinInit(small, Removed(large, j));
      WithinFront(small[..|small| - 1], Removed(large, j), e);
    } else if |small| == c {
      WithinLength(small, large);
      WithinInit(small, large);
      WithinFront(small[..|small| - 1], if |large| == c' then large[..|large| - 1] else large, e);
    } else {
      WithinFront(small, large, e);
    }
  }

  lemma IncludedSizes<K, V>(small: seq<Entry<K, V>>, large: seq<Entry<K, V>>, c: nat, c': nat, op: Op<K, V>)
    requires Included(small, large, c, c') && 1 <= c <= c'
    ensures |After(small, c, op)| == c || After(small, c, op) == After(large, c', op)
  {}

  /** Stack inclusion: after any trace, the smaller cache holds a part of what the larger one
      holds, in the same order and with the same values. */
  lemma {:induction false} StackInclusion<K, V>(ops: seq<Op<K, V>>, c: nat, c': nat)
    requires 1 <= c <= c'
    ensures Included(Reached(ops, c), Reached(ops, c'), c, c')
  {
    if ops == [] {
    } else {
      var n := |ops| - 1;
      var small, large := Reached(ops[..n], c), Reached(ops[..n], c');
      StackInclusion(ops[..n], c, c');
      StepDistinct(small, c, ops[n]);
      StepDistinct(large, c', ops[n]);
      IncludedSizes(small, large, c, c', ops[n]);
      match ops[n]
      case Get(k) => IncludedGet(small, large, c, c', k);
      case Put(k, v) => IncludedPut(small, large, c, c', k, v);
    }
  }

  /** So every hit of the smaller cache is a hit of the larger one, with the same value. */
  lemma HitsIncluded<K, V>(ops: seq<Op<K, V>>, c: nat, c': nat, k: K)
    requires 1 <= c <= c'
    ensures Answer(Reached(ops, c), k).Some? ==> Answer(Reached(ops, c'), k) == Answer(Reached(ops, c), k)
  {
    StackInclusion(ops, c, c');
    IncludedKey(Reached(ops, c), Reached(ops, c'), k);
  }

  /** Recency lists of two capacities need not be prefixes of each other: a missed get does
      not fill the smaller cache. */
  lemma NotAPrefix()
    ensures var ops := [Put(1, 0), Put(2, 0), Get(1)];
            Reached(ops, 1) == [Entry(2, 0)] && Reached(ops, 2) == [Entry(1, 0), Entry(2, 0)]
  {
    var ops: seq<Op<int, int>> := [Put(1, 0), Put(2, 0), Get(1)];
    assert ops[..2] == [Put(1, 0), Put(2, 0)] && ops[..2][..1] == [Put(1, 0)];
    assert Reached(ops[..2][..1], 1) == [Entry(1, 0)] && Reached(ops[..2][..1], 2) == [Entry(1, 0)];
    assert Reached(ops[..2], 1) == [Entry(2, 0)] && Reached(ops[..2], 2) == [Entry(2, 0), Entry(1, 0)];
  }
}
