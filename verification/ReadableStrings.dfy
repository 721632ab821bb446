/** Readable strings: the maximal runs of at least five printable bytes. They are searched
    for block by block, so a run that a block boundary cuts is not found as one. This
    module says exactly when that makes a difference. */
module ReadableStrings {
  import opened Bytes

  const MIN_LENGTH: nat := 5

  predicate Printable(b: Byte) {
    0x20 <= b <= 0x7f
  }

  predicate AllPrintable(s: seq<Byte>) {
    forall i :: 0 <= i < |s| ==> Printable(s[i])
  }

  /** The length of the printable run at the end. */
  function TailRun(s: seq<Byte>): (r: nat)
    ensures r <= |s|
  {
    if s == [] || !Printable(s[|s| - 1]) then 0 else 1 + TailRun(s[..|s| - 1])
  }

  /** A text without its last `k` bytes. */
  function Front(s: seq<Byte>, k: nat): seq<Byte>
    requires k <= |s|
  {
    s[..|s| - k]
  }

  /** The string that a tail run gives, if it is long enough. */
  function TailString(s: seq<Byte>, r: nat): seq<seq<Byte>>
    requires r <= |s|
  {
    if r >= MIN_LENGTH then [s[|s| - r..]] else []
  }

  /** One step back: over the tail run, or over one byte that is not printable. */
  function StepBack(s: seq<Byte>): (k: nat)
    requires s != []
    ensures 1 <= k <= |s|
  {
    if TailRun(s) == 0 then 1 else TailRun(s)
  }

  /** The maximal runs of at least five printable bytes, from left to right. */
  function Strings(s: seq<Byte>): seq<seq<Byte>>
    decreases |s|
  {
    if s == [] then [] else Strings(Front(s, StepBack(s))) + TailString(s, TailRun(s))
  }

  lemma {:induction false} TailRunPrintable(s: seq<Byte>)
    ensures forall i :: |s| - TailRun(s) <= i < |s| ==> Printable(s[i])
    ensures TailRun(s) < |s| ==> !Printable(s[|s| - TailRun(s) - 1])
  {
    if s == [] || !Printable(s[|s| - 1]) {
    } else {
      TailRunPrintable(s[..|s| - 1]);
    }
  }

  /** The tail run is the longest printable suffix. */
  lemma {:induction false} TailRunLongest(s: seq<Byte>, n: nat)
    requires n <= |s| && forall i :: |s| - n <= i < |s| ==> Printable(s[i])
    ensures n <= TailRun(s)
  {
    if n == 0 {
    } else {
      TailRunLongest(s[..|s| - 1], n - 1);
    }
  }

  /** Behind a boundary, the tail run goes on only through an entirely printable part. */
  lemma {:induction false} TailRunConcat(a: seq<Byte>, b: seq<Byte>)
    ensures TailRun(a + b) == if TailRun(b) == |b| then TailRun(a) + |b| else TailRun(b)
  {
    if b == [] {
      assert a + b == a;
    } else {
      var n := |b| - 1;
      assert (a + b)[..|a| + n] == a + b[..n];
      TailRunConcat(a, b[..n]);
    }
  }

  // ---------- joining two parts

  /** The length of the printable run at the front. */
  function HeadRun(s: seq<Byte>): (r: nat)
    ensures r <= |s|
  {
    if s == [] || !Printable(s[0]) then 0 else 1 + HeadRun(s[1..])
  }

  lemma {:induction false} HeadRunPrintable(s: seq<Byte>)
    ensures forall i :: 0 <= i < HeadRun(s) ==> Printable(s[i])
    ensures HeadRun(s) < |s| ==> !Printable(s[HeadRun(s)])
  {
    if s == [] || !Printable(s[0]) {
    } else {
      HeadRunPrintable(s[1..]);
      assert forall i :: 1 <= i < |s| ==> s[i] == s[1..][i - 1];
    }
  }

  lemma {:induction false} HeadRunLongest(s: seq<Byte>, n: nat)
    requires n <= |s| && forall i :: 0 <= i < n ==> Printable(s[i])
    ensures n <= HeadRun(s)
  {
    if n == 0 {
    } else {
      HeadRunLongest(s[1..], n - 1);
    }
  }

  /** The boundary between `a` and `b` goes through a run of at least five bytes. */
  predicate Cut(a: seq<Byte>, b: seq<Byte>) {
    TailRun(a) > 0 && HeadRun(b) > 0 && TailRun(a) + HeadRun(b) >= MIN_LENGTH
  }

  lemma {:induction false} TotalLengthConcat(a: seq<seq<Byte>>, b: seq<seq<Byte>>)
    ensures TotalLength(a + b) == TotalLength(a) + TotalLength(b)
  {
    if b == [] {
      assert a + b == a;
    } else {
      var n := |b| - 1;
      assert (a + b)[..|a| + n] == a + b[..n];
      TotalLengthConcat(a, b[..n]);
    }
  }

  /** The strings of a text are those in front of its tail run, and the tail run. */
  lemma StringsSplitTail(s: seq<Byte>)
    ensures Strings(s) == Strings(Front(s, TailRun(s))) + TailString(s, TailRun(s))
  {
    if TailRun(s) == 0 {
      assert Front(s, 0) == s;
      assert Strings(s) + [] == Strings(s);
    } else {
      assert StepBack(s) == TailRun(s);
    }
  }

  lemma TailStringConcat(a: seq<Byte>, b: seq<Byte>, r: nat)
    requires r <= |b|
    ensures TailString(a + b, r) == TailString(b, r)
  {
    assert (a + b)[|a + b| - r..] == b[|b| - r..];
  }

  lemma FrontConcat(a: seq<Byte>, b: seq<Byte>, k: nat)
    requires k <= |b|
    ensures Front(a + b, k) == a + Front(b, k)
  {}

  lemma ConcatAssociative<T>(x: seq<T>, y: seq<T>, z: seq<T>)
    ensures x + (y + z) == (x + y) + z
  {}

  /** Where no run crosses the boundary, the strings of the two parts are found
      independently. */
  lemma {:induction false} StringsAfterGap(a: seq<Byte>, b: seq<Byte>)
    requires TailRun(a) == 0 || HeadRun(b) == 0
    ensures Strings(a + b) == Strings(a) + Strings(b)
    decreases |b|
  {
    if b == [] {
      assert a + b == a;
    } else {
      var k := StepBack(b);
      SameTail(a, b);
      TailStringConcat(a, b, TailRun(b));
      FrontConcat(a, b, k);
      HeadRunFront(b, k);
      StringsAfterGap(a, Front(b, k));
      assert Strings(a + b) == Strings(a + Front(b, k)) + TailString(b, TailRun(b));
      ConcatAssociative(Strings(a), Strings(Front(b, k)), TailString(b, TailRun(b)));
    }
  }

  lemma SameTail(a: seq<Byte>, b: seq<Byte>)
    requires b != [] && (TailRun(a) == 0 || HeadRun(b) == 0)
    ensures TailRun(a + b) == TailRun(b)
  {
    TailRunConcat(a, b);
    if TailRun(b) == |b| {
      TailRunPrintable(b);
      assert Printable(b[0]);
    }
  }

  lemma HeadRunFront(b: seq<Byte>, k: nat)
    requires k <= |b|
    ensures HeadRun(b) == 0 ==> HeadRun(Front(b, k)) == 0
  {}

  /** An entirely printable text is one string, if it is long enough. */
  lemma StringsOfRun(s: seq<Byte>)
    requires AllPrintable(s)
    ensures Strings(s) == TailString(s, |s|)
  {
    TailRunLongest(s, |s|);
    StringsSplitTail(s);
    assert Front(s, |s|) == [];
    assert [] + TailString(s, |s|) == TailString(s, |s|);
  }

  lemma SplitAtTail(a: seq<Byte>) returns (front: seq<Byte>, run: seq<Byte>)
    ensures a == front + run && |run| == TailRun(a) && AllPrintable(run)
    ensures TailRun(front) == 0
    ensures Strings(a) == Strings(front) + TailString(run, |run|)
  {
    var n := |a| - TailRun(a);
    front, run := Front(a, TailRun(a)), a[n..];
    assert a == front + run;
    TailRunPrintable(a);
    forall i | 0 <= i < |run| ensures Printable(run[i]) {
      assert run[i] == a[n + i];
    }
    assert n > 0 ==> front[n - 1] == a[n - 1];
    StringsSplitTail(a);
    assert run[|run| - |run|..] == run;
  }

  lemma SplitAtHead(b: seq<Byte>) returns (run: seq<Byte>, back: seq<Byte>)
    ensures b == run + back && |run| == HeadRun(b) && AllPrintable(run)
    ensures HeadRun(back) == 0
    ensures Strings(b) == TailString(run, |run|) + Strings(back)
  {
    var n := HeadRun(b);
    run, back := b[..n], b[n..];
    HeadRunPrintable(b);
    assert b == run + back;
    forall i | 0 <= i < |run| ensures Printable(run[i]) {
      assert run[i] == b[i];
    }
    assert back != [] ==> back[0] == b[n];
    StringsAfterGap(run, back);
    StringsOfRun(run);
  }

  /** Joining two parts changes the strings only in the run across the boundary. */
  lemma StringsJoin(a: seq<Byte>, b: seq<Byte>)
    returns (front: seq<seq<Byte>>, tail: seq<Byte>, head: seq<Byte>, back: seq<seq<Byte>>)
    ensures |tail| == TailRun(a) && |head| == HeadRun(b)
    ensures Strings(a) == front + TailString(tail, |tail|)
    ensures Strings(b) == TailString(head, |head|) + back
    ensures Strings(a + b) == front + TailString(tail + head, |tail + head|) + back
  {
    var a0, b1;
    a0, tail := SplitAtTail(a);
    head, b1 := SplitAtHead(b);
    front, back := Strings(a0), Strings(b1);
    StringsAround(a0, tail + head, b1);
    ConcatAssociative(a0 + tail, head, b1);
    ConcatAssociative(a0, tail, head);
  }

  lemma StringsAround(a0: seq<Byte>, run: seq<Byte>, b1: seq<Byte>)
    requires TailRun(a0) == 0 && AllPrintable(run) && HeadRun(b1) == 0
    ensures Strings(a0 + run + b1) == Strings(a0) + TailString(run, |run|) + Strings(b1)
  {
    StringsAfterGap(a0 + run, b1);
    StringsAfterGap(a0, run);
    StringsOfRun(run);
  }

  /** The strings of a cut run against those of its two pieces. */
  lemma CutRun(tail: seq<Byte>, head: seq<Byte>)
    requires |tail| > 0 && |head| > 0 && |tail| + |head| >= MIN_LENGTH
    ensures var apart := TailString(tail, |tail|) + TailString(head, |head|);
            var whole := TailString(tail + head, |tail + head|);
            || TotalLength(apart) < TotalLength(whole)
            || (TotalLength(apart) == TotalLength(whole) && |apart| == |whole| + 1)
  {
    RunLength(tail);
    RunLength(head);
    RunLength(tail + head);
    TotalLengthConcat(TailString(tail, |tail|), TailString(head, |head|));
  }

  lemma UncutRun(tail: seq<Byte>, head: seq<Byte>)
    requires |tail| == 0 || |head| == 0 || |tail| + |head| < MIN_LENGTH
    ensures TailString(tail + head, |tail + head|) == TailString(tail, |tail|) + TailString(head, |head|)
  {
    if |tail| == 0 {
      assert tail + head == head;
    } else if |head| == 0 {
      assert tail + head == tail;
    }
  }

  /** What a boundary does: nothing if it cuts no run. Otherwise fewer bytes are found, or
      as many bytes in one string more. */
  lemma JoinStatistics(a: seq<Byte>, b: seq<Byte>)
    ensures !Cut(a, b) ==> Strings(a + b) == Strings(a) + Strings(b)
    ensures Cut(a, b) ==>
              var apart, whole := Strings(a) + Strings(b), Strings(a + b);
              || TotalLength(apart) < TotalLength(whole)
              || (TotalLength(apart) == TotalLength(whole) && |apart| == |whole| + 1)
  {
    var front, tail, head, back := StringsJoin(a, b);
    var x, y, z := TailString(tail, |tail|), TailString(head, |head|), TailString(tail + head, |tail + head|);
    Regroup(front, x, y, back);
    if !Cut(a, b) {
      UncutRun(tail, head);
    } else {
      CutRun(tail, head);
      AroundLength(front, x + y, back);
      AroundLength(front, z, back);
    }
  }

  lemma Regroup<T>(p: seq<T>, q: seq<T>, r: seq<T>, s: seq<T>)
    ensures (p + q) + (r + s) == p + (q + r) + s
  {}

  lemma AroundLength(front: seq<seq<Byte>>, middle: seq<seq<Byte>>, back: seq<seq<Byte>>)
    ensures TotalLength(front + middle + back) == TotalLength(front) + TotalLength(middle) + TotalLength(back)
  {
    TotalLengthConcat(front + middle, back);
    TotalLengthConcat(front, middle);
  }

  lemma RunLength(run: seq<Byte>)
    ensures TotalLength(TailString(run, |run|)) == if |run| >= MIN_LENGTH then |run| else 0
  {
    if |run| >= MIN_LENGTH {
      assert TailString(run, |run|)[..0] == [];
    }
  }

  // ---------- a whole file in blocks

  /** What is found when every block is searched on its own. */
  function Found(blocks: seq<seq<Byte>>): seq<seq<Byte>> {
    if blocks == [] then [] else Found(blocks[..|blocks| - 1]) + Strings(blocks[|blocks| - 1])
  }

  /** No boundary cuts a run of what came before it and the block behind it. */
  ghost predicate NoCuts(blocks: seq<seq<Byte>>) {
    blocks == [] || (NoCuts(blocks[..|blocks| - 1])
                     && !Cut(Concat(blocks[..|blocks| - 1]), blocks[|blocks| - 1]))
  }

  lemma {:induction false} BlockStatistics(blocks: seq<seq<Byte>>)
    ensures var found, whole := Found(blocks), Strings(Concat(blocks));
            && TotalLength(found) <= TotalLength(whole)
            && (TotalLength(found) == TotalLength(whole) ==> |found| >= |whole|)
            && (NoCuts(blocks) ==> found == whole)
            && (!NoCuts(blocks) ==> TotalLength(found) < TotalLength(whole) || |found| > |whole|)
  {
    if blocks == [] {
    } else {
      var n := |blocks| - 1;
      var before, b := Concat(blocks[..n]), blocks[n];
      BlockStatistics(blocks[..n]);
      JoinStatistics(before, b);
      TotalLengthConcat(Found(blocks[..n]), Strings(b));
      TotalLengthConcat(Strings(before), Strings(b));
    }
  }

  /** Five printable bytes from position `l` on, in numbers. */
  predicate Window(file: seq<Byte>, l: nat) {
    l + 5 <= |file| && forall i :: l <= i < l + 5 ==> 0x20 <= file[i] <= 0x7f
  }

  /** Five printable bytes of the file lie across position `p`. */
  ghost predicate Straddles(file: seq<Byte>, p: nat) {
    exists l: nat :: Window(file, l) && l < p < l + 5
  }

  /** Position `p` is where a block other than the first one begins. */
  ghost predicate Boundary(blocks: seq<seq<Byte>>, p: nat) {
    exists k :: 0 < k < |blocks| && p == |Concat(blocks[..k])|
  }

  lemma CutGivesWindow(a: seq<Byte>, b: seq<Byte>)
    requires Cut(a, b)
    ensures Straddles(a + b, |a|)
  {
    TailRunPrintable(a);
    HeadRunPrintable(b);
    var l := |a| - (if TailRun(a) < MIN_LENGTH - 1 then TailRun(a) else MIN_LENGTH - 1);
    assert Window(a + b, l);
  }

  lemma WindowGivesCut(a: seq<Byte>, b: seq<Byte>, l: nat)
    requires Window(a + b, l) && l < |a| < l + 5
    ensures Cut(a, b)
  {
    var file := a + b;
    forall i | l <= i < |a| ensures Printable(a[i]) {
      assert a[i] == file[i];
    }
    forall i | 0 <= i < l + MIN_LENGTH - |a| ensures Printable(b[i]) {
      assert b[i] == file[|a| + i];
    }
    TailRunLongest(a, |a| - l);
    HeadRunLongest(b, l + MIN_LENGTH - |a|);
  }

  lemma CutStraddles(a: seq<Byte>, b: seq<Byte>)
    ensures Cut(a, b) <==> Straddles(a + b, |a|)
  {
    if Cut(a, b) {
      CutGivesWindow(a, b);
    }
    if Straddles(a + b, |a|) {
      var l: nat :| Window(a + b, l) && l < |a| < l + 5;
      WindowGivesCut(a, b, l);
    }
  }

  /** A run that straddles a boundary of the file is cut at some block, and only then. */
  lemma {:induction false} NoCutsNoStraddle(blocks: seq<seq<Byte>>)
    ensures NoCuts(blocks) <==> forall p: nat :: Boundary(blocks, p) ==> !Straddles(Concat(blocks), p)
  {
    if blocks == [] {
    } else {
      var n := |blocks| - 1;
      var front := blocks[..n];
      var a, b := Concat(front), blocks[n];
      assert blocks == front + [b];
      NoCutsNoStraddle(front);
      CutStraddles(a, b);
      forall p: nat ensures Boundary(blocks, p) <==> Boundary(front, p) || (n > 0 && p == |a|) {
        BoundarySnoc(front, b, p);
      }
      forall p: nat | Boundary(front, p)
        ensures Straddles(a, p) ==> Straddles(a + b, p)
        ensures Straddles(a + b, p) ==> Straddles(a, p) || Straddles(a + b, |a|)
      {
        BoundaryInside(front, p);
        StraddlesGrow(a, b, p);
      }
    }
  }

  lemma BoundarySnoc(front: seq<seq<Byte>>, b: seq<Byte>, p: nat)
    ensures Boundary(front + [b], p) <==> Boundary(front, p) || (front != [] && p == |Concat(front)|)
  {
    var n := |front|;
    var blocks := front + [b];
    if Boundary(blocks, p) {
      var k :| 0 < k < |blocks| && p == |Concat(blocks[..k])|;
      assert blocks[..k] == front[..k];
      assert front[..n] == front;
    }
    if Boundary(front, p) {
      var k :| 0 < k < n && p == |Concat(front[..k])|;
      assert blocks[..k] == front[..k];
    }
    if front != [] && p == |Concat(front)| {
      assert blocks[..n] == front;
    }
  }

  lemma BoundaryInside(blocks: seq<seq<Byte>>, p: nat)
    requires Boundary(blocks, p)
    ensures p <= |Concat(blocks)|
  {
    var k :| 0 < k < |blocks| && p == |Concat(blocks[..k])|;
    ConcatLonger(blocks, k);
  }

  lemma {:induction false} ConcatLonger(blocks: seq<seq<Byte>>, k: nat)
    requires k <= |blocks|
    ensures |Concat(blocks[..k])| <= |Concat(blocks)|
  {
    if k == |blocks| {
      assert blocks[..k] == blocks;
    } else {
      assert blocks[..|blocks| - 1][..k] == blocks[..k];
      ConcatLonger(blocks[..|blocks| - 1], k);
    }
  }

  lemma StraddlesGrow(a: seq<Byte>, b: seq<Byte>, p: nat)
    requires p <= |a|
    ensures Straddles(a, p) ==> Straddles(a + b, p)
    ensures Straddles(a + b, p) ==> Straddles(a, p) || Straddles(a + b, |a|)
  {
    var file := a + b;
    if Straddles(a, p) {
      var l: nat :| Window(a, l) && l < p < l + 5;
      assert Window(file, l);
    }
    if Straddles(file, p) {
      var l: nat :| Window(file, l) && l < p < l + 5;
      if l + MIN_LENGTH <= |a| {
        assert forall i :: l <= i < l + MIN_LENGTH ==> a[i] == file[i];
        assert Window(a, l);
      } else {
        assert l < |a| < l + 5;
      }
    }
  }

  /** Searching block by block finds as many strings and as many bytes as searching the
      whole file, if and only if no five printable bytes lie across a block boundary; and
      then it finds the very same strings. */
  lemma BlockwiseSearch(blocks: seq<seq<Byte>>)
    ensures var found, whole := Found(blocks), Strings(Concat(blocks));
            && ((|found| == |whole| && TotalLength(found) == TotalLength(whole))
                <==> forall p: nat :: Boundary(blocks, p) ==> !Straddles(Concat(blocks), p))
            && ((forall p: nat :: Boundary(blocks, p) ==> !Straddles(Concat(blocks), p)) ==> found == whole)
  {
    BlockStatistics(blocks);
    NoCutsNoStraddle(blocks);
  }

  // ---------- the search

  /** [from, to) is a maximal run of at least five printable bytes, in numbers. */
  ghost predicate MaximalRun(s: seq<Byte>, from: nat, to: nat) {
    && from + 5 <= to <= |s|
    && (forall i :: from <= i < to ==> 0x20 <= s[i] <= 0x7f)
    && (from > 0 ==> !(0x20 <= s[from - 1] <= 0x7f))
    && (to < |s| ==> !(0x20 <= s[to] <= 0x7f))
  }

  /** Every maximal run is found, in its place. */
  lemma MaximalRunFound(s: seq<Byte>, from: nat, to: nat)
    requires MaximalRun(s, from, to)
    ensures Strings(s) == Strings(s[..from]) + [s[from..to]] + Strings(s[to..])
  {
    var a, run, b := s[..from], s[from..to], s[to..];
    assert s == a + run + b;
    forall i | 0 <= i < |run| ensures Printable(run[i]) {
      assert run[i] == s[from + i];
    }
    StringsAround(a, run, b);
    assert run[0..] == run;
  }

  /** And nothing else is: without five printable bytes in a row there is no string. */
  lemma {:induction false} NoWindowNoString(s: seq<Byte>)
    requires forall l: nat :: !Window(s, l)
    ensures Strings(s) == []
    decreases |s|
  {
    if s == [] {
    } else {
      var k := StepBack(s);
      TailRunPrintable(s);
      if TailRun(s) >= MIN_LENGTH {
        assert Window(s, |s| - MIN_LENGTH);
      }
      forall l: nat ensures !Window(Front(s, k), l) {
        assert Window(Front(s, k), l) ==> Window(s, l);
      }
      NoWindowNoString(Front(s, k));
    }
  }

  /** Strings are printable, and at least five bytes long each. */
  lemma {:induction false} StringsWellFormed(s: seq<Byte>)
    ensures forall k :: 0 <= k < |Strings(s)| ==> |Strings(s)[k]| >= MIN_LENGTH && AllPrintable(Strings(s)[k])
    decreases |s|
  {
    if s == [] {
    } else {
      StringsWellFormed(Front(s, StepBack(s)));
      TailRunPrintable(s);
    }
  }

  ghost predicate IsMaximalRun(s: seq<Byte>, run: seq<Byte>) {
    exists from: nat, to: nat :: MaximalRun(s, from, to) && run == s[from..to]
  }

  /** Every string found is a maximal run. */
  lemma {:induction false} StringsAreRuns(s: seq<Byte>)
    ensures forall k :: 0 <= k < |Strings(s)| ==> IsMaximalRun(s, Strings(s)[k])
    decreases |s|
  {
    if s == [] {
    } else {
      var n := StepBack(s);
      var front := Front(s, n);
      StringsAreRuns(front);
      TailRunPrintable(s);
      forall k | 0 <= k < |Strings(front)| ensures IsMaximalRun(s, Strings(front)[k]) {
        FrontRun(s, n, Strings(front)[k]);
      }
      var r := TailRun(s);
      assert r >= MIN_LENGTH ==> MaximalRun(s, |s| - r, |s|) && s[|s| - r..|s|] == s[|s| - r..];
    }
  }

  lemma FrontRun(s: seq<Byte>, n: nat, run: seq<Byte>)
    requires n <= |s| && IsMaximalRun(Front(s, n), run)
    requires n == |s| || n == 0 || !Printable(s[|s| - n]) || !Printable(s[|s| - n - 1])
    ensures IsMaximalRun(s, run)
  {
    var front := Front(s, n);
    var from: nat, to: nat :| MaximalRun(front, from, to) && run == front[from..to];
    forall i | from <= i < to ensures Printable(s[i]) {
      assert Printable(front[i]);
    }
    assert Printable(s[to - 1]);
    assert to < |front| ==> front[to] == s[to];
    assert from > 0 ==> front[from - 1] == s[from - 1];
    assert MaximalRun(s, from, to);
    SliceOfFront(s, |front|, from, to);
  }

  lemma SliceOfFront(s: seq<Byte>, n: nat, from: nat, to: nat)
    requires from <= to <= n <= |s|
    ensures s[..n][from..to] == s[from..to]
  {}

  /** One match: from the first five printable bytes in a row to the end of their run. */
  ghost predicate LeftmostLongest(input: seq<Byte>, from: nat, to: nat) {
    && from + 5 <= to <= |input|
    && (forall i :: from <= i < to ==> 0x20 <= input[i] <= 0x7f)
    && (to == |input| || !(0x20 <= input[to] <= 0x7f))
    && forall l: nat :: l < from ==> !Window(input, l)
  }

  /** RE2::FindAndConsume with the expression for readable strings: the leftmost match,
      and the longest one that starts there. */
  method FindAndConsume(input: seq<Byte>) returns (found: bool, from: nat, to: nat)
    ensures found ==> LeftmostLongest(input, from, to)
    ensures !found ==> forall l: nat :: !Window(input, l)
  {
    from, to := 0, 0;
    while to < |input|
      invariant from <= to <= |input|
      invariant forall i :: from <= i < to ==> Printable(input[i])
      invariant forall l: nat :: l < from ==> !Window(input, l)
      decreases |input| - to
    {
      if Printable(input[to]) {
        to := to + 1;
      } else if to - from >= MIN_LENGTH {
        return true, from, to;
      } else {
        forall l: nat | l <= to ensures !Window(input, l) {
          assert l + MIN_LENGTH > to ==> !Printable(input[to]);
        }
        to := to + 1;
        from := to;
      }
    }
    found := to - from >= MIN_LENGTH;
  }

  /** A leftmost match begins a maximal run, and nothing is found in front of it. */
  lemma LeftmostStarts(input: seq<Byte>, from: nat, to: nat)
    requires LeftmostLongest(input, from, to)
    ensures from > 0 ==> !(0x20 <= input[from - 1] <= 0x7f)
    ensures forall l: nat :: !Window(input[..from], l)
  {
    assert forall l: nat :: l + 1 == from && 0x20 <= input[l] <= 0x7f ==> Window(input, l);
    forall l: nat ensures !Window(input[..from], l) {
      assert Window(input[..from], l) ==> Window(input, l) && l < from;
    }
  }

  /** Consuming match after match yields exactly the strings of the input. */
  lemma ConsumeStep(input: seq<Byte>, from: nat, to: nat)
    requires LeftmostLongest(input, from, to)
    ensures Strings(input) == [input[from..to]] + Strings(input[to..])
  {
    LeftmostStarts(input, from, to);
    NoWindowNoString(input[..from]);
    MaximalRunFound(input, from, to);
    assert [] + [input[from..to]] == [input[from..to]];
  }

  /** A space does not end a string: eleven bytes from 0x48 to 0x64 are one. */
  lemma HelloWorld(s: seq<Byte>)
    requires s == [0x48, 0x65, 0x6c, 0x6c, 0x6f, 0x20, 0x57, 0x6f, 0x72, 0x6c, 0x64]
    ensures Strings(s) == [s]
  {
    assert MaximalRun(s, 0, 11);
    MaximalRunFound(s, 0, 11);
    assert s[..0] == [] && s[0..11] == s && s[11..] == [];
  }
}
