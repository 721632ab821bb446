/** Two reducers that see a file block by block: a 256-bin counter, and a catcher of the
    bytes at chosen offsets. Their state is a function of the bytes seen so far, so it
    does not depend on where the blocks were cut. */
module ByteReducers {
  import opened Collections
  import opened Bytes

  class ByteCounter {
    var totalNumBytes: nat
    const byteCounts: array<nat>
    ghost var seen: seq<Byte>

    /** The bins are allocated but not cleared. */
    constructor ()
      ensures fresh(byteCounts) && byteCounts.Length == 256
    {
      totalNumBytes := 0;
      byteCounts := new nat[256];
      seen := [];
    }

    ghost predicate Valid()
      reads this, byteCounts
    {
      && byteCounts.Length == 256
      && totalNumBytes == |seen|
      && forall b :: 0 <= b < 256 ==> byteCounts[b] == Count(seen, b)
    }

    method Reset()
      requires byteCounts.Length == 256
      modifies this, byteCounts
      ensures Valid() && seen == []
    {
      totalNumBytes := 0;
      seen := [];
      for i := 0 to 256
        invariant totalNumBytes == 0 && seen == []
        invariant forall b :: 0 <= b < i ==> byteCounts[b] == 0
      {
        byteCounts[i] := 0;
      }
    }

    method Reduce(buf: seq<Byte>)
      requires Valid()
      modifies this, byteCounts
      ensures Valid() && seen == old(seen) + buf
    {
      ghost var before := seen;
      assert buf[..0] == [] && before + [] == before;
      for i := 0 to |buf|
        invariant seen == before && totalNumBytes == |before|
        invariant forall b :: 0 <= b < 256 ==> byteCounts[b] == Count(before + buf[..i], b)
      {
        CountTwo(before + buf[..i], buf[i]);
        assert before + buf[..i + 1] == (before + buf[..i]) + [buf[i]];
        byteCounts[buf[i]] := byteCounts[buf[i]] + 1;
      }
      assert buf[..|buf|] == buf;
      totalNumBytes := totalNumBytes + |buf|;
      seen := before + buf;
    }
  }

  lemma CountTwo(s: seq<Byte>, x: Byte)
    ensures forall b :: Count(s + [x], b) == Count(s, b) + (if x == b then 1 else 0)
  {
    forall b ensures Count(s + [x], b) == Count(s, b) + (if x == b then 1 else 0) {
      CountSnoc(s, x, b);
    }
  }

  /** The byte of a file at an offset, or 0 past its end. */
  function ByteAt(file: seq<Byte>, offset: nat): Byte {
    if offset < |file| then file[offset] else 0
  }

  class ByteCatcher {
    var offsetToByteMap: map<nat, Byte>
    var maxOffsetToLookFor: nat
    ghost var seen: seq<Byte>

    constructor ()
      ensures Caught() && seen == [] && offsetToByteMap == map[]
    {
      offsetToByteMap := map[];
      maxOffsetToLookFor := 0;
      seen := [];
    }

    /** Every wanted offset holds its byte, as far as it has been seen. */
    ghost predicate Caught()
      reads this
    {
      forall o :: o in offsetToByteMap ==> offsetToByteMap[o] == ByteAt(seen, o)
    }

    ghost predicate Started()
      reads this
    {
      && Caught()
      && forall o :: o in offsetToByteMap ==> o <= maxOffsetToLookFor
    }

    method Reset()
      modifies this
      ensures Caught() && seen == [] && offsetToByteMap == map[]
    {
      offsetToByteMap := map[];
      seen := [];
    }

    /** Asking twice changes nothing. An offset that has already been passed is caught no
        more. */
    method WantByteAtOffset(offset: nat)
      modifies `offsetToByteMap
      ensures offsetToByteMap == if offset in old(offsetToByteMap) then old(offsetToByteMap)
                                 else old(offsetToByteMap)[offset := 0]
      ensures old(Caught()) ==> (Caught() <==> offset in old(offsetToByteMap) || ByteAt(seen, offset) == 0)
    {
      if offset !in offsetToByteMap {
        offsetToByteMap := offsetToByteMap[offset := 0];
      }
    }

    method Start()
      requires Caught() && seen == []
      modifies `maxOffsetToLookFor
      ensures Started()
    {
      var maxKey := 0;
      var keys: set<nat> := offsetToByteMap.Keys;
      while keys != {}
        invariant keys <= offsetToByteMap.Keys
        invariant forall o :: o in offsetToByteMap && o !in keys ==> o <= maxKey
        decreases keys
      {
        HasMember(keys);
        var key: nat :| key in keys;
        if key > maxKey {
          maxKey := key;
        }
        keys := keys - {key};
      }
      maxOffsetToLookFor := maxKey;
    }

    /** Blocks come in order. Once past the largest wanted offset there is nothing to do. */
    method Reduce(bufOffset: nat, buf: seq<Byte>)
      requires Started() && bufOffset == |seen|
      modifies `offsetToByteMap, `seen
      ensures Started() && seen == old(seen) + buf
      ensures offsetToByteMap.Keys == old(offsetToByteMap.Keys)
    {
      if offsetToByteMap == map[] || bufOffset > maxOffsetToLookFor {
        seen := seen + buf;
        return;
      }
      var upperOffsetLimitExclusive := bufOffset + |buf|;
      ghost var after := seen + buf;
      var keys: set<nat> := offsetToByteMap.Keys;
      while keys != {}
        invariant keys <= offsetToByteMap.Keys == old(offsetToByteMap.Keys)
        invariant forall o :: o in keys ==> offsetToByteMap[o] == ByteAt(seen, o)
        invariant forall o :: o in offsetToByteMap && o !in keys ==> offsetToByteMap[o] == ByteAt(after, o)
        invariant seen == old(seen)
        decreases keys
      {
        HasMember(keys);
        var absoluteOffset: nat :| absoluteOffset in keys;
        if bufOffset <= absoluteOffset < upperOffsetLimitExclusive {
          var relativeOffset := absoluteOffset - bufOffset;
          offsetToByteMap := offsetToByteMap[absoluteOffset := buf[relativeOffset]];
        }
        keys := keys - {absoluteOffset};
      }
      seen := after;
    }
  }
}
