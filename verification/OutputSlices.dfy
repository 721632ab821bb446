/** What it means to write one slice of the shared output and nothing else. */
module OutputSlices {

  function AsReals(c: seq<nat>): (r: seq<real>)
    ensures |r| == |c|
  {
    seq(|c|, i requires 0 <= i < |c| => c[i] as real)
  }

  /** Shares of the total, which are zero when there is nothing to share. */
  function Shares(c: seq<nat>, total: nat): (r: seq<real>)
    ensures |r| == |c|
  {
    seq(|c|, i requires 0 <= i < |c| => if total == 0 then c[i] as real else c[i] as real / total as real)
  }

  lemma ShareTimes(c: seq<nat>, total: nat, i: nat, share: real)
    requires i < |c| && (total == 0 ==> c[i] == 0) && share == Shares(c, total)[i]
    ensures share * total as real == c[i] as real && (total == 0 ==> share == 0.0)
  {}

  /** Two outputs that agree everywhere but on the `n` cells from `at` on. */
  ghost predicate SameOutside(before: seq<real>, after: seq<real>, at: nat, n: nat) {
    && |before| == |after|
    && forall k :: 0 <= k < |after| && !(at <= k < at + n) ==> after[k] == before[k]
  }

  /** `row` replaces the cells of `before` from `at` on, and nothing else changes. */
  ghost predicate Replaces(before: seq<real>, after: seq<real>, at: nat, row: seq<real>) {
    && at + |row| <= |before|
    && after == before[..at] + row + before[at + |row|..]
  }

  /** The cells from `at` on hold `row`. */
  ghost predicate HoldsAt(s: seq<real>, at: nat, row: seq<real>) {
    at + |row| <= |s| && s[at..at + |row|] == row
  }

  lemma ThreeSlices(a: seq<real>, b: seq<real>, c: seq<real>)
    ensures (a + b + c)[..|a|] == a
    ensures (a + b + c)[|a|..|a| + |b|] == b
    ensures (a + b + c)[|a| + |b|..] == c
  {}

  lemma FourSlices(a: seq<real>, b: seq<real>, c: seq<real>, d: seq<real>)
    ensures (a + b + c + d)[..|a|] == a
    ensures (a + b + c + d)[|a|..|a| + |b|] == b
    ensures (a + b + c + d)[|a| + |b|..|a| + |b| + |c|] == c
    ensures (a + b + c + d)[|a| + |b| + |c|..] == d
  {}

  lemma SameOutsideChain(a: seq<real>, b: seq<real>, c: seq<real>, at: nat, n: nat)
    requires SameOutside(a, b, at, n) && SameOutside(b, c, at, n)
    ensures SameOutside(a, c, at, n)
  {}

  lemma SameOutsideWiden(a: seq<real>, b: seq<real>, at: nat, n: nat, at': nat, n': nat)
    requires SameOutside(a, b, at, n)
    requires at' <= at && at + n <= at' + n'
    ensures SameOutside(a, b, at', n')
  {}

  lemma ReplacesHolds(before: seq<real>, after: seq<real>, at: nat, row: seq<real>)
    requires Replaces(before, after, at, row)
    ensures SameOutside(before, after, at, |row|) && HoldsAt(after, at, row)
  {}

  /** A slice keeps its contents while another one is written. */
  lemma HoldsKept(before: seq<real>, after: seq<real>, at: nat, row: seq<real>, at': nat, n': nat)
    requires HoldsAt(before, at, row) && SameOutside(before, after, at', n')
    requires at + |row| <= at' || at' + n' <= at
    ensures HoldsAt(after, at, row)
  {
    forall k | 0 <= k < |row| ensures after[at..at + |row|][k] == row[k] {
      assert before[at..at + |row|][k] == row[k];
    }
  }

  lemma HoldsJoin(s: seq<real>, at: nat, a: seq<real>, b: seq<real>)
    requires HoldsAt(s, at, a) && HoldsAt(s, at + |a|, b)
    ensures HoldsAt(s, at, a + b)
  {
    assert s[at..at + |a + b|] == s[at..at + |a|] + s[at + |a|..at + |a| + |b|];
  }

  lemma HoldsLast(a: seq<real>, b: seq<real>)
    ensures HoldsAt(a + b, |a|, b)
  {}

  lemma HoldsBefore(a: seq<real>, at: nat, row: seq<real>, b: seq<real>)
    requires HoldsAt(a, at, row)
    ensures HoldsAt(a + b, at, row)
  {
    assert (a + b)[at..at + |row|] == a[at..at + |row|];
  }

  lemma HoldsBehind(s: seq<real>, n: nat, at: nat, row: seq<real>)
    requires n <= |s| && HoldsAt(s[n..], at, row)
    ensures HoldsAt(s, n + at, row)
  {
    assert s[n + at..n + at + |row|] == s[n..][at..at + |row|];
  }

  lemma HoldsCell(s: seq<real>, at: nat, cell: real, row: seq<real>)
    requires HoldsAt(s, at + 1, row) && s[at] == cell
    ensures HoldsAt(s, at, [cell] + row)
  {
    HoldsJoin(s, at, [cell], row);
  }
}
