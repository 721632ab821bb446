/** Sequences and sets, as several modules need them. */
module Collections {

  /** A sequence without the element at `p`. */
  function Removed<T>(s: seq<T>, p: nat): (r: seq<T>)
    requires p < |s|
    ensures |r| == |s| - 1
  {
    s[..p] + s[p + 1..]
  }

  /** Sequences put together, one after the other. */
  function Flatten<T>(parts: seq<seq<T>>): seq<T> {
    if parts == [] then [] else Flatten(parts[..|parts| - 1]) + parts[|parts| - 1]
  }

  /** How many elements have a property. */
  ghost function Number<T>(s: seq<T>, p: T -> bool): nat {
    |set i | 0 <= i < |s| && p(s[i])|
  }

  lemma NumberSnoc<T>(s: seq<T>, x: T, p: T -> bool)
    ensures Number(s + [x], p) == Number(s, p) + if p(x) then 1 else 0
  {
    var before := set i | 0 <= i < |s| && p(s[i]);
    assert (set i | 0 <= i < |s + [x]| && p((s + [x])[i])) == before + if p(x) then {|s|} else {};
  }

  lemma NumberOfNone<T>(s: seq<T>, p: T -> bool)
    requires s == []
    ensures Number(s, p) == 0
  {
    assert (set i | 0 <= i < |s| && p(s[i])) == {};
  }

  lemma HasMember(s: set<int>)
    ensures s == {} || exists x: int :: x in s
  {
    if forall x: int :: x !in s {
      assert s == {};
    }
  }
}
