/** The doubly linked list: pointers rewritten in place, against one sequence of nodes. */
module LkLists {
  import opened Collections

  // ---------- sequences

  function Inserted<T>(s: seq<T>, p: nat, x: T): (r: seq<T>)
    requires p <= |s|
    ensures |r| == |s| + 1
  {
    s[..p] + [x] + s[p..]
  }

  function Reversed<T>(s: seq<T>): (r: seq<T>)
    ensures |r| == |s|
    ensures forall i :: 0 <= i < |s| ==> r[i] == s[|s| - 1 - i]
  {
    if s == [] then [] else Reversed(s[1..]) + [s[0]]
  }

  ghost predicate NoRepeats<T>(s: seq<T>) {
    forall i, j :: 0 <= i < j < |s| ==> s[i] != s[j]
  }

  lemma NoRepeatsInserted<T>(s: seq<T>, p: nat, x: T)
    requires NoRepeats(s) && p <= |s| && x !in s
    ensures NoRepeats(Inserted(s, p, x))
  {}

  lemma NoRepeatsRemoved<T>(s: seq<T>, p: nat)
    requires NoRepeats(s) && p < |s|
    ensures NoRepeats(Removed(s, p)) && s[p] !in Removed(s, p)
  {}

  // ---------- nodes

  class LkNode<T> {
    var prev: LkNode?<T>
    var next: LkNode?<T>
    var data: T

    constructor (data: T)
      ensures this.data == data && prev == null && next == null
    {
      this.data := data;
      prev, next := null, null;
    }
  }

  /** A node, or null outside the sequence. */
  function At<T>(s: seq<LkNode<T>>, i: int): LkNode?<T> {
    if 0 <= i < |s| then s[i] else null
  }

  /** Node `i` points at its two neighbours. */
  ghost predicate LinkedAt<T>(s: seq<LkNode<T>>, i: int)
    requires 0 <= i < |s|
    reads s
  {
    s[i].prev == At(s, i - 1) && s[i].next == At(s, i + 1)
  }

  ghost predicate Linked<T>(s: seq<LkNode<T>>)
    reads s
  {
    forall i :: 0 <= i < |s| ==> LinkedAt(s, i)
  }

  ghost function DataOf<T>(s: seq<LkNode<T>>): (d: seq<T>)
    reads s
    ensures |d| == |s|
  {
    seq(|s|, i requires 0 <= i < |s| reads s => s[i].data)
  }

  // ---------- insertion

  /** Node `i` of `s` as it points once `x` has come in front of node `p`. */
  ghost predicate MadeRoomAt<T>(s: seq<LkNode<T>>, p: nat, x: LkNode<T>, i: int)
    requires 0 <= i < |s|
    reads s
  {
    && s[i].prev == (if i == p then x else At(s, i - 1))
    && s[i].next == (if i + 1 == p then x else At(s, i + 1))
  }

  ghost predicate MadeRoom<T>(s: seq<LkNode<T>>, p: nat, x: LkNode<T>)
    reads s, x
  {
    && x.prev == At(s, p - 1) && x.next == At(s, p)
    && forall i :: 0 <= i < |s| ==> MadeRoomAt(s, p, x, i)
  }

  lemma InsertedAt<T>(s: seq<LkNode<T>>, p: nat, x: LkNode<T>, i: int)
    requires p <= |s|
    ensures At(Inserted(s, p, x), i) == if i < p then At(s, i) else if i == p then x else At(s, i - 1)
  {}

  lemma InsertedLinked<T>(s: seq<LkNode<T>>, p: nat, x: LkNode<T>)
    requires p <= |s| && MadeRoom(s, p, x)
    ensures Linked(Inserted(s, p, x))
    ensures DataOf(Inserted(s, p, x)) == Inserted(DataOf(s), p, x.data)
  {
    var t := Inserted(s, p, x);
    forall i | 0 <= i < |t| ensures LinkedAt(t, i) {
      InsertedAt(s, p, x, i - 1);
      InsertedAt(s, p, x, i);
      InsertedAt(s, p, x, i + 1);
      assert i < p ==> MadeRoomAt(s, p, x, i);
      assert i > p ==> MadeRoomAt(s, p, x, i - 1);
    }
  }

  // ---------- removal

  /** Node `i` of `s` as it points once node `p` has been left out. */
  ghost predicate ClosedUpAt<T>(s: seq<LkNode<T>>, p: nat, i: int)
    requires 0 <= i < |s|
    reads s
  {
    && s[i].prev == (if i == p + 1 then At(s, p - 1) else At(s, i - 1))
    && s[i].next == (if i + 1 == p then At(s, p + 1) else At(s, i + 1))
  }

  ghost predicate ClosedUp<T>(s: seq<LkNode<T>>, p: nat)
    reads s
  {
    forall i :: 0 <= i < |s| && i != p ==> ClosedUpAt(s, p, i)
  }

  lemma RemovedAt<T>(s: seq<LkNode<T>>, p: nat, i: int)
    requires p < |s|
    ensures At(Removed(s, p), i) == if i < p then At(s, i) else At(s, i + 1)
  {}

  lemma RemovedLinked<T>(s: seq<LkNode<T>>, p: nat)
    requires p < |s| && ClosedUp(s, p)
    ensures Linked(Removed(s, p))
    ensures DataOf(Removed(s, p)) == Removed(DataOf(s), p)
  {
    var t := Removed(s, p);
    forall i | 0 <= i < |t| ensures LinkedAt(t, i) {
      RemovedAt(s, p, i - 1);
      RemovedAt(s, p, i);
      RemovedAt(s, p, i + 1);
      assert i < p ==> ClosedUpAt(s, p, i);
      assert i >= p ==> ClosedUpAt(s, p, i + 1);
    }
  }

  // ---------- the two chains

  /** The nodes met on the way along next, or along prev, up to `n` of them. */
  ghost function NextChain<T>(from: LkNode?<T>, s: set<LkNode<T>>, n: nat): seq<LkNode<T>>
    reads s
  {
    if n == 0 || from == null || from !in s then [] else [from] + NextChain(from.next, s, n - 1)
  }

  ghost function PrevChain<T>(from: LkNode?<T>, s: set<LkNode<T>>, n: nat): seq<LkNode<T>>
    reads s
  {
    if n == 0 || from == null || from !in s then [] else [from] + PrevChain(from.prev, s, n - 1)
  }

  ghost function Members<T>(s: seq<LkNode<T>>): set<LkNode<T>> { set x | x in s }

  lemma {:induction false} NextChainFrom<T>(s: seq<LkNode<T>>, i: nat, n: nat)
    requires Linked(s) && i <= |s| && n >= |s| - i
    ensures NextChain(At(s, i), Members(s), n) == s[i..]
    decreases |s| - i
  {
    if i == |s| {
    } else {
      assert LinkedAt(s, i);
      NextChainFrom(s, i + 1, n - 1);
      assert s[i..] == [s[i]] + s[i + 1..];
    }
  }

  lemma {:induction false} PrevChainFrom<T>(s: seq<LkNode<T>>, i: nat, n: nat)
    requires Linked(s) && i <= |s| && n >= i
    ensures PrevChain(At(s, i - 1), Members(s), n) == Reversed(s[..i])
  {
    if i == 0 {
    } else {
      assert LinkedAt(s, i - 1);
      PrevChainFrom(s, i - 1, n - 1);
      ReversedSnoc(s[..i - 1], s[i - 1]);
      assert s[..i] == s[..i - 1] + [s[i - 1]];
    }
  }

  lemma ChainsOf<T>(s: seq<LkNode<T>>, n: nat)
    requires Linked(s) && n >= |s|
    ensures NextChain(At(s, 0), Members(s), n) == s
    ensures PrevChain(At(s, |s| - 1), Members(s), n) == Reversed(s)
  {
    WholeSlices(s);
    NextChainFrom(s, 0, n);
    PrevChainFrom(s, |s|, n);
  }

  lemma WholeSlices<T>(s: seq<T>)
    ensures s[0..] == s && s[..|s|] == s
  {}

  lemma ReversedSnoc<T>(s: seq<T>, x: T)
    ensures Reversed(s + [x]) == [x] + Reversed(s)
  {}

  // ---------- the list

  class LkList<T(==)> {
    var head: LkNode?<T>
    var tail: LkNode?<T>
    var size: nat
    ghost var nodes: seq<LkNode<T>>

    constructor ()
      ensures Valid() && nodes == []
    {
      head, tail, size, nodes := null, null, 0, [];
    }

    ghost predicate Valid()
      reads this, nodes
    {
      Ends() && NoRepeats(nodes) && Linked(nodes)
    }

    ghost predicate Ends()
      reads this
    {
      size == |nodes| && head == At(nodes, 0) && tail == At(nodes, |nodes| - 1)
    }

    ghost function Contents(): (c: seq<T>)
      reads this, nodes
      ensures |c| == |nodes|
    {
      DataOf(nodes)
    }

    /** Where a new node goes: in front of `where`, or to the end. */
    ghost function Place(where: LkNode?<T>): (p: nat)
      requires nodes != [] && where != null ==> where in nodes
      reads this
      ensures p <= |nodes|
      ensures nodes != [] && where != null ==> p < |nodes| && nodes[p] == where
      ensures nodes == [] || where == null ==> p == |nodes|
    {
      if nodes != [] && where != null then
        var p: nat :| p < |nodes| && nodes[p] == where; p
      else |nodes|
    }

    /** `where` is ignored in an empty list. */
    method Insert(where: LkNode?<T>, data: T) returns (ok: bool)
      requires Valid()
      requires nodes != [] && where != null ==> where in nodes
      modifies this, nodes
      ensures Valid() && ok
      ensures Contents() == Inserted(old(Contents()), old(Place(where)), data)
      ensures fresh(nodes[old(Place(where))])
      ensures nodes == Inserted(old(nodes), old(Place(where)), nodes[old(Place(where))])
      ensures forall j :: 0 <= j < |nodes| ==> nodes[j] in old(nodes) || fresh(nodes[j])
    {
      ghost var p := Place(where);
      ghost var before, data0 := nodes, Contents();
      var newNode := new LkNode(data);
      LinkNode(where, newNode, p);
      FixEnds(newNode, p);
      InsertedLinked(before, p, newNode);
      NoRepeatsInserted(before, p, newNode);
      assert DataOf(before) == data0;
      ok := true;
    }

    /** The new node and its neighbours are made to point at each other. */
    method LinkNode(where: LkNode?<T>, newNode: LkNode<T>, ghost p: nat)
      requires Valid() && newNode !in nodes
      requires newNode.prev == null && newNode.next == null
      requires nodes != [] && where != null ==> where in nodes
      requires p == Place(where)
      modifies nodes`prev, nodes`next, newNode`prev, newNode`next
      ensures MadeRoom(nodes, p, newNode)
    {
      ghost var s := nodes;
      assert 0 < p <= |s| ==> LinkedAt(s, p - 1);
      assert p < |s| ==> LinkedAt(s, p);
      label Before:
      if head == null {
        newNode.next, newNode.prev := null, null;
      } else if where == null {
        newNode.prev := tail;
        newNode.next := null;
        if tail != null {
          tail.next := newNode;
        }
      } else {
        newNode.next := where;
        newNode.prev := where.prev;
        if where.prev != null {
          where.prev.next := newNode;
        }
        where.prev := newNode;
      }
      forall i | 0 <= i < |s| ensures MadeRoomAt(s, p, newNode, i) {
        assert old@Before(LinkedAt(s, i));
        assert i != p && p < |s| ==> s[i] != s[p];
        assert i != p - 1 && p > 0 ==> s[i] != s[p - 1];
      }
    }

    method FixEnds(newNode: LkNode<T>, ghost p: nat)
      requires p <= |nodes| && MadeRoom(nodes, p, newNode)
      requires Ends()
      modifies this
      ensures nodes == Inserted(old(nodes), p, newNode) && Ends()
    {
      if newNode.next == null {
        tail := newNode;
      }
      if newNode.prev == null {
        head := newNode;
      }
      size := size + 1;
      nodes := Inserted(nodes, p, newNode);
    }

    /** The node is taken out; its own fields are left alone. */
    method Remove(which: LkNode<T>)
      requires Valid() && which in nodes
      modifies this, nodes
      ensures Valid() && which !in nodes
      ensures nodes == Removed(old(nodes), old(Place(which)))
      ensures Contents() == Removed(old(Contents()), old(Place(which)))
      ensures forall j :: 0 <= j < |nodes| ==> nodes[j] in old(nodes)
    {
      ghost var p := Place(which);
      ghost var before, data0 := nodes, Contents();
      UnlinkNode(which, p);
      size := size - 1;
      nodes := Removed(nodes, p);
      RemovedLinked(before, p);
      NoRepeatsRemoved(before, p);
      assert DataOf(before) == data0;
      forall j | 0 <= j < |nodes| ensures nodes[j] in before {
        assert nodes[j] == before[if j < p then j else j + 1];
      }
    }

    method UnlinkNode(which: LkNode<T>, ghost p: nat)
      requires Valid() && p < |nodes| && nodes[p] == which
      modifies `head, `tail, nodes`prev, nodes`next
      ensures ClosedUp(nodes, p)
      ensures head == (if p == 0 then At(nodes, 1) else nodes[0])
      ensures tail == (if p + 1 == |nodes| then At(nodes, p - 1) else nodes[|nodes| - 1])
    {
      ghost var s := nodes;
      assert LinkedAt(s, p);
      assert p > 0 ==> LinkedAt(s, p - 1);
      assert p + 1 < |s| ==> LinkedAt(s, p + 1);
      label Before:
      var before := which.prev;
      var after := which.next;
      if before == null {
        head := after;
      } else {
        before.next := after;
      }
      if after == null {
        tail := before;
      } else {
        after.prev := before;
      }
      forall i | 0 <= i < |s| && i != p ensures ClosedUpAt(s, p, i) {
        assert old@Before(LinkedAt(s, i));
        assert i != p + 1 && p + 1 < |s| ==> s[i] != s[p + 1];
        assert i != p - 1 && p > 0 ==> s[i] != s[p - 1];
      }
    }

    /** Node `pos`, or null behind the end; a negative position finds the head. */
    method Locate(pos: int) returns (found: LkNode?<T>)
      requires Valid()
      ensures found == if pos < 0 then head else At(nodes, pos)
    {
      found := head;
      var i := 0;
      while i < pos
        invariant 0 <= i && (i == 0 || i <= pos) && found == At(nodes, i)
      {
        if found == null {
          return null;
        }
        assert LinkedAt(nodes, i);
        found := found.next;
        i := i + 1;
      }
    }

    /** Moves a cursor; false at the end. */
    method Next(current: LkNode?<T>, ghost i: nat) returns (more: bool, next: LkNode?<T>)
      requires Valid() && i <= |nodes| && current == At(nodes, i)
      ensures next == (if i < |nodes| then At(nodes, i + 1) else null)
      ensures more <==> next != null
    {
      if current == null {
        return false, null;
      }
      assert LinkedAt(nodes, i);
      next := current.next;
      more := next != null;
    }

    /** The position of the first element that satisfies a predicate, or -1. */
    method Find(p: T -> bool) returns (r: int)
      requires Valid()
      ensures -1 <= r < |nodes|
      ensures r >= 0 ==> p(Contents()[r])
      ensures forall k :: 0 <= k < |nodes| && (r == -1 || k < r) ==> !p(Contents()[k])
    {
      if size == 0 {
        return -1;
      }
      var current := head;
      var i := 0;
      while true
        invariant 0 <= i < |nodes| && current == nodes[i]
        invariant forall k :: 0 <= k < i ==> !p(Contents()[k])
        decreases |nodes| - i
      {
        assert Contents()[i] == current.data;
        if p(current.data) {
          return i;
        }
        var more, next := Next(current, i);
        i := i + 1;
        current := next;
        if !more {
          break;
        }
      }
      r := -1;
    }

    method IndexOf(data: T) returns (r: int)
      requires Valid()
      ensures -1 <= r < |nodes|
      ensures r == -1 <==> data !in Contents()
      ensures r >= 0 ==> Contents()[r] == data && data !in Contents()[..r]
    {
      if size == 0 {
        return -1;
      }
      var current := head;
      var i := 0;
      while true
        invariant 0 <= i < |nodes| && current == nodes[i]
        invariant data !in Contents()[..i]
        decreases |nodes| - i
      {
        assert Contents()[i] == current.data;
        if current.data == data {
          return i;
        }
        assert Contents()[..i + 1] == Contents()[..i] + [current.data];
        var more, next := Next(current, i);
        i := i + 1;
        current := next;
        if !more {
          break;
        }
      }
      assert Contents()[..|nodes|] == Contents();
      r := -1;
    }

    method CopyToArray(dest: array<T>)
      requires Valid() && size <= dest.Length
      modifies dest
      ensures dest[..size] == Contents() && dest[size..] == old(dest[size..])
      ensures Contents() == old(Contents())
    {
      if size == 0 {
        return;
      }
      var offset := 0;
      var current := head;
      while true
        invariant 0 <= offset < |nodes| && current == nodes[offset]
        invariant dest[..offset] == Contents()[..offset]
        invariant dest[size..] == old(dest[size..])
        decreases |nodes| - offset
      {
        assert Contents()[offset] == current.data;
        dest[offset] := current.data;
        var more, next := Next(current, offset);
        offset := offset + 1;
        current := next;
        if !more {
          break;
        }
      }
    }

    method Clear()
      requires Valid()
      modifies this
      ensures Valid() && nodes == []
    {
      size := 0;
      head, tail := null, null;
      nodes := [];
    }

    /** Following next from the head meets every node, following prev from the tail meets
        them in reverse, and both chains end after `size` nodes. */
    lemma Chains(n: nat)
      requires Valid() && n >= size
      ensures NextChain(head, Members(nodes), n) == nodes
      ensures PrevChain(tail, Members(nodes), n) == Reversed(nodes)
    {
      ChainsOf(nodes, n);
    }
  }

  // ---------- whole runs

  /** Insertion and removal at the node that Locate finds, and insertion at the end. */
  datatype Step<T> = Push(pos: int, data: T) | Append(data: T) | Delete(pos: int)

  function Position(pos: int, n: nat): nat {
    if pos < 0 then 0 else if pos < n then pos else n
  }

  /** A step on the sequence; there is nothing to delete where no node is. */
  function AfterStep<T>(s: seq<T>, step: Step<T>): seq<T> {
    match step
    case Push(pos, x) => Inserted(s, Position(pos, |s|), x)
    case Append(x) => s + [x]
    case Delete(pos) => if Position(pos, |s|) < |s| then Removed(s, Position(pos, |s|)) else s
  }

  function AfterSteps<T>(script: seq<Step<T>>): seq<T> {
    if script == [] then [] else AfterStep(AfterSteps(script[..|script| - 1]), script[|script| - 1])
  }

  method Perform<T(==)>(ll: LkList<T>, step: Step<T>)
    requires ll.Valid()
    modifies ll, ll.nodes
    ensures ll.Valid()
    ensures forall j :: 0 <= j < |ll.nodes| ==> ll.nodes[j] in old(ll.nodes) || fresh(ll.nodes[j])
    ensures ll.Contents() == AfterStep(old(ll.Contents()), step)
  {
    match step {
      case Push(pos, data) =>
        var where := ll.Locate(pos);
        assert ll.Place(where) == Position(pos, |ll.nodes|);
        var _ := ll.Insert(where, data);
      case Append(data) =>
        var _ := ll.Insert(null, data);
      case Delete(pos) =>
        var which := ll.Locate(pos);
        if which != null {
          assert ll.Place(which) == Position(pos, |ll.nodes|);
          ll.Remove(which);
        }
    }
  }

  /** After any sequence of insertions and removals the list holds what the same steps make
      of a sequence. */
  method RunScript<T(==)>(script: seq<Step<T>>) returns (ll: LkList<T>)
    ensures fresh(ll) && ll.Valid() && ll.Contents() == AfterSteps(script)
  {
    ll := new LkList();
    assert script[..0] == [];
    for i := 0 to |script|
      invariant ll.Valid() && fresh(ll) && forall j :: 0 <= j < |ll.nodes| ==> fresh(ll.nodes[j])
      invariant ll.Contents() == AfterSteps(script[..i])
    {
      assert script[..i + 1][..i] == script[..i];
      Perform(ll, script[i]);
    }
    assert script[..|script|] == script;
  }

  /** The sequence that the list's own demonstration goes through. */
  lemma Demonstration()
    ensures var pushes: seq<Step<int>> := [Push(0, 1), Push(0, 2), Push(0, 3), Append(400)];
            && AfterSteps(pushes) == [3, 2, 1, 400]
            && AfterSteps(pushes + [Delete(0)] + [Delete(1)]) == [2, 400]
  {
    var pushes: seq<Step<int>> := [Push(0, 1), Push(0, 2), Push(0, 3), Append(400)];
    assert pushes[..3] == [Push(0, 1), Push(0, 2), Push(0, 3)] && pushes[..3][..2] == [Push(0, 1), Push(0, 2)];
    assert pushes[..3][..2][..1] == [Push(0, 1)];
    assert pushes[..3][..2][..1][..0] == [];
    assert AfterSteps(pushes[..3][..2][..1]) == Inserted([], 0, 1) == [1];
    assert AfterSteps(pushes[..3][..2]) == Inserted([1], 0, 2) == [2, 1];
    assert AfterSteps(pushes[..3]) == Inserted([2, 1], 0, 3) == [3, 2, 1];
    var first := pushes + [Delete(0)];
    assert first[..4] == pushes && (first + [Delete(1)])[..5] == first;
    assert AfterSteps(first) == [2, 1, 400];
  }
}
