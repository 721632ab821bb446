/** The cache itself: a list of nodes, most recent first, and an index from keys to nodes. */
module LruCaches {
  import opened Collections
  import opened RecencyLists

  /** A node of the list; the index holds references to nodes, as the map of iterators does. */
  class Node<K, V> {
    const key: K
    var value: V

    constructor (key: K, value: V)
      ensures this.key == key && this.value == value
    {
      this.key, this.value := key, value;
    }
  }

  ghost predicate Indexed<K(!new), V>(cache: seq<Node<K, V>>, index: map<K, Node<K, V>>) {
    && (forall i, j :: 0 <= i < j < |cache| ==> cache[i].key != cache[j].key)
    && (forall i :: 0 <= i < |cache| ==> cache[i].key in index && index[cache[i].key] == cache[i])
    && (forall k :: k in index ==> index[k] in cache && index[k].key == k)
  }

  /** A list without one of its elements. */
  function Unlinked<T(==)>(l: seq<T>, x: T): seq<T> {
    if l == [] then [] else if l[0] == x then l[1..] else [l[0]] + Unlinked(l[1..], x)
  }

  lemma {:induction false} UnlinkedAt<T>(l: seq<T>, i: nat)
    requires i < |l| && l[i] !in l[..i]
    ensures Unlinked(l, l[i]) == Removed(l, i)
  {
    if i == 0 {
    } else {
      assert l[0] == l[..i][0];
      assert l[1..][..i - 1] == l[..i][1..];
      UnlinkedAt(l[1..], i - 1);
    }
  }

  function Moved<T>(l: seq<T>, i: nat): (r: seq<T>)
    requires i < |l|
    ensures |r| == |l|
  {
    [l[i]] + Removed(l, i)
  }

  /** Where the element now at `q` was, when the one at `i` has moved to the front. */
  function MovedFrom(i: nat, q: nat): nat {
    if q == 0 then i else if q <= i then q - 1 else q
  }

  lemma MovedAt<T>(l: seq<T>, i: nat, q: nat)
    requires i < |l| && q < |l|
    ensures Moved(l, i)[q] == l[MovedFrom(i, q)]
  {}

  lemma MovedTo<T>(l: seq<T>, i: nat, p: nat)
    requires i < |l| && p < |l|
    ensures l[p] in Moved(l, i)
  {
    MovedAt(l, i, if p == i then 0 else if p < i then p + 1 else p);
  }

  lemma IndexedMoved<K(!new), V>(cache: seq<Node<K, V>>, index: map<K, Node<K, V>>, i: nat)
    requires Indexed(cache, index) && i < |cache|
    ensures Indexed(Moved(cache, i), index)
  {
    var moved := Moved(cache, i);
    forall q, q' | 0 <= q < q' < |moved| ensures moved[q].key != moved[q'].key {
      MovedAt(cache, i, q);
      MovedAt(cache, i, q');
    }
    forall q | 0 <= q < |moved| ensures moved[q].key in index && index[moved[q].key] == moved[q] {
      MovedAt(cache, i, q);
    }
    forall k | k in index ensures index[k] in moved {
      var p :| 0 <= p < |cache| && cache[p] == index[k];
      MovedTo(cache, i, p);
    }
  }

  lemma IndexedFront<K(!new), V>(cache: seq<Node<K, V>>, index: map<K, Node<K, V>>, node: Node<K, V>)
    requires Indexed(cache, index) && node.key !in index
    ensures Indexed([node] + cache, index[node.key := node])
  {
    var grown := [node] + cache;
    assert grown[0] == node && grown[1..] == cache;
    forall k | k in index ensures index[k] in grown {
      var p :| 0 <= p < |cache| && cache[p] == index[k];
      assert grown[p + 1] == index[k];
    }
  }

  lemma IndexedBack<K(!new), V>(cache: seq<Node<K, V>>, index: map<K, Node<K, V>>)
    requires Indexed(cache, index) && cache != []
    ensures Indexed(cache[..|cache| - 1], index - {cache[|cache| - 1].key})
  {
    var rest := cache[..|cache| - 1];
    forall k | k in index && k != cache[|cache| - 1].key ensures index[k] in rest {
      var p :| 0 <= p < |cache| && cache[p] == index[k];
      assert rest[p] == index[k];
    }
  }

  class LruCache<K(==, !new), V> {
    const capacity: nat
    var cache: seq<Node<K, V>>
    var index: map<K, Node<K, V>>

    constructor (capacity: nat)
      requires capacity >= 1
      ensures Valid() && this.capacity == capacity && Entries() == []
    {
      this.capacity := capacity;
      cache, index := [], map[];
    }

    /** The keys of the list are distinct, the index has exactly these keys, and every key
        points at its own node. */
    ghost predicate Valid()
      reads this
    {
      1 <= capacity && |cache| <= capacity && Indexed(cache, index)
    }

    ghost function Entries(): (l: seq<Entry<K, V>>)
      reads this, cache
      ensures |l| == |cache|
    {
      seq(|cache|, i requires 0 <= i < |cache| reads this, cache => Entry(cache[i].key, cache[i].value))
    }

    /** A hit is moved to the front; the value is left alone on a miss. */
    method Get(key: K, value: V) returns (hit: bool, value': V)
      requires Valid()
      modifies this
      ensures Valid() && forall n :: n in cache ==> n in old(cache)
      ensures Entries() == AfterGet(old(Entries()), key)
      ensures hit <==> Answer(old(Entries()), key).Some?
      ensures hit ==> Answer(old(Entries()), key) == Some(value')
      ensures !hit ==> value' == value && cache == old(cache)
    {
      ghost var before := Entries();
      KeyFound(key);
      if key !in index {
        return false, value;
      }
      var node := index[key];
      MoveToFront(node, IndexOf(before, key));
      value' := node.value;
      hit := true;
    }

    /** A known key is updated in place. A new key evicts the last node of a full list. */
    method Put(key: K, value: V)
      requires Valid()
      modifies this, cache
      ensures Valid()
      ensures Entries() == AfterPut(old(Entries()), capacity, key, value)
      ensures forall n :: n in cache ==> n in old(cache) || fresh(n)
    {
      ghost var before := Entries();
      KeyFound(key);
      if key in index {
        var node := index[key];
        node.value := value;
        assert Entries() == before[IndexOf(before, key) := Entry(key, value)];
        MoveToFront(node, IndexOf(before, key));
      } else {
        if |cache| == capacity {
          PopBack();
        }
        EmplaceFront(key, value);
      }
    }

    lemma KeyFound(key: K)
      requires Valid()
      ensures key in index <==> Has(Entries(), key)
      ensures key in index ==> IndexOf(Entries(), key) < |cache| && cache[IndexOf(Entries(), key)] == index[key]
    {
      var l := Entries();
      if key in index {
        var i :| 0 <= i < |cache| && cache[i] == index[key];
        OnlyOne(l, i);
      }
    }

    /** Splice to the front. */
    method MoveToFront(node: Node<K, V>, ghost i: nat)
      requires Valid() && i < |cache| && cache[i] == node
      modifies this`cache
      ensures Valid() && cache == Moved(old(cache), i)
      ensures Entries() == Moved(old(Entries()), i)
    {
      ghost var nodes, before := cache, Entries();
      IndexedMoved(cache, index, i);
      UnlinkedAt(cache, i);
      cache := [node] + Unlinked(cache, node);
      forall q | 0 <= q < |cache| ensures Entries()[q] == Moved(before, i)[q] {
        MovedAt(nodes, i, q);
        MovedAt(before, i, q);
      }
    }

    method PopBack()
      requires Valid() && cache != []
      modifies this
      ensures Valid() && cache == old(cache[..|cache| - 1])
      ensures Entries() == old(Entries()[..|cache| - 1])
    {
      IndexedBack(cache, index);
      var last := cache[|cache| - 1];
      index := index - {last.key};
      cache := cache[..|cache| - 1];
    }

    method EmplaceFront(key: K, value: V)
      requires Valid() && key !in index && |cache| < capacity
      modifies this
      ensures Valid() && |cache| > 0 && fresh(cache[0]) && cache[1..] == old(cache)
      ensures Entries() == [Entry(key, value)] + old(Entries())
    {
      ghost var before := Entries();
      var node := new Node(key, value);
      IndexedFront(cache, index, node);
      cache := [node] + cache;
      assert Entries() == [Entry(key, value)] + before;
      index := index[key := node];
    }
  }

  /** What the gets of a trace answer. */
  function Answers<K(==), V>(ops: seq<Op<K, V>>, capacity: nat): seq<Option<V>> {
    if ops == [] then []
    else
      var n := |ops| - 1;
      Answers(ops[..n], capacity)
      + (if ops[n].Get? then [Answer(Reached(ops[..n], capacity), ops[n].key)] else [])
  }

  method Replay<K(==, !new), V>(capacity: nat, ops: seq<Op<K, V>>, unset: V) returns (answers: seq<Option<V>>)
    requires capacity >= 1
    ensures answers == Answers(ops, capacity)
  {
    var c := new LruCache<K, V>(capacity);
    answers := [];
    assert ops[..0] == [];
    for i := 0 to |ops|
      invariant c.Valid() && c.capacity == capacity
      invariant fresh(c) && forall n :: n in c.cache ==> fresh(n)
      invariant c.Entries() == Reached(ops[..i], capacity) && answers == Answers(ops[..i], capacity)
    {
      assert ops[..i + 1][..i] == ops[..i];
      match ops[i] {
        case Get(k) =>
          var hit, value := c.Get(k, unset);
          answers := answers + [if hit then Some(value) else None];
        case Put(k, v) => c.Put(k, v);
      }
    }
    assert ops[..|ops|] == ops;
  }
}
