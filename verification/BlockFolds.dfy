/** A MurmurHash3 digest is a left fold of a step over the key's blocks, followed by
    one tail step. What the hashes need from that shape is proved here once, for
    every step that can be undone. */
module BlockFolds {

  function Fold<S, B>(step: (S, B) -> S, s: S, blocks: seq<B>): S {
    if blocks == [] then s
    else step(Fold(step, s, blocks[..|blocks| - 1]), blocks[|blocks| - 1])
  }

  /** Runs the undo step over the blocks from the last one to the first. */
  function Unfold<S, B>(undo: (S, B) -> S, s: S, blocks: seq<B>): S {
    if blocks == [] then s
    else Unfold(undo, undo(s, blocks[|blocks| - 1]), blocks[..|blocks| - 1])
  }

  /** For every fixed block, `undo` is the two-sided inverse of `step`. */
  ghost predicate Undoes<S(!new), B(!new)>(step: (S, B) -> S, undo: (S, B) -> S) {
    && (forall s, b :: undo(step(s, b), b) == s)
    && (forall s, b :: step(undo(s, b), b) == s)
  }

  /** For every fixed state, the block can be read back from the state it leads to. */
  ghost predicate Recovers<S(!new), B(!new)>(step: (S, B) -> S, blockOf: (S, S) -> B) {
    forall s, b :: blockOf(s, step(s, b)) == b
  }

  /** The sequences differ at index `i` and nowhere else. */
  ghost predicate DifferOnlyAt<B>(xs: seq<B>, ys: seq<B>, i: nat) {
    && |xs| == |ys|
    && i < |xs|
    && xs[i] != ys[i]
    && forall j :: 0 <= j < |xs| && j != i ==> xs[j] == ys[j]
  }

  lemma FoldSnoc<S, B>(step: (S, B) -> S, s: S, blocks: seq<B>, n: nat)
    requires n < |blocks|
    ensures Fold(step, s, blocks[..n + 1]) == step(Fold(step, s, blocks[..n]), blocks[n])
  {
    assert blocks[..n + 1][..n] == blocks[..n];
  }

  lemma {:induction false} FoldUnfold<S(!new), B(!new)>(
    step: (S, B) -> S, undo: (S, B) -> S, s: S, blocks: seq<B>)
    requires Undoes(step, undo)
    ensures Unfold(undo, Fold(step, s, blocks), blocks) == s
    ensures Fold(step, Unfold(undo, s, blocks), blocks) == s
  {
    if blocks == [] {
    } else {
      var last := blocks[|blocks| - 1];
      FoldUnfold(step, undo, s, blocks[..|blocks| - 1]);
      FoldUnfold(step, undo, undo(s, last), blocks[..|blocks| - 1]);
    }
  }

  /** Changing exactly one block changes the folded state. */
  lemma {:induction false} FoldSeparates<S(!new), B(!new)>(
    step: (S, B) -> S, undo: (S, B) -> S, blockOf: (S, S) -> B, s: S, xs: seq<B>, ys: seq<B>, i: nat)
    requires Undoes(step, undo) && Recovers(step, blockOf)
    requires DifferOnlyAt(xs, ys, i)
    ensures Fold(step, s, xs) != Fold(step, s, ys)
  {
    var n := |xs| - 1;
    var x, y := Fold(step, s, xs[..n]), Fold(step, s, ys[..n]);
    if i == n {
      assert xs[..n] == ys[..n];
      assert blockOf(x, step(x, xs[n])) == xs[n] && blockOf(x, step(x, ys[n])) == ys[n];
    } else {
      FoldSeparates(step, undo, blockOf, s, xs[..n], ys[..n], i);
      assert undo(step(x, xs[n]), xs[n]) == x && undo(step(y, ys[n]), ys[n]) == y;
    }
  }

  /** A hash as its parts: the block step with its undo and read-back, and the
      finishing function of the folded state and the tail with the same two. */
  datatype Mixer<!S, !B> = Mixer(
    step: (S, B) -> S, undo: (S, B) -> S, blockOf: (S, S) -> B,
    finish: (S, B) -> S, unfinish: (S, B) -> S, tailOf: (S, S) -> B)

  function Digest<S, B>(m: Mixer<S, B>, s: S, blocks: seq<B>, tail: B): S {
    m.finish(Fold(m.step, s, blocks), tail)
  }

  ghost predicate Reversible<S(!new), B(!new)>(m: Mixer<S, B>) {
    && Undoes(m.step, m.undo) && Recovers(m.step, m.blockOf)
    && Undoes(m.finish, m.unfinish) && Recovers(m.finish, m.tailOf)
  }

  /** Two keys that differ in one block only, or only in the tail, have different digests. */
  lemma DigestSeparates<S(!new), B(!new)>(
    m: Mixer<S, B>, s: S, xs: seq<B>, ys: seq<B>, tx: B, ty: B, i: nat)
    requires Reversible(m)
    requires (DifferOnlyAt(xs, ys, i) && tx == ty) || (xs == ys && tx != ty)
    ensures Digest(m, s, xs, tx) != Digest(m, s, ys, ty)
  {
    var x, y := Fold(m.step, s, xs), Fold(m.step, s, ys);
    if tx == ty {
      FoldSeparates(m.step, m.undo, m.blockOf, s, xs, ys, i);
      assert m.unfinish(m.finish(x, tx), tx) == x && m.unfinish(m.finish(y, tx), tx) == y;
    } else {
      assert m.tailOf(x, m.finish(x, tx)) == tx && m.tailOf(x, m.finish(x, ty)) == ty;
    }
  }

  /** For a fixed key, the digest and its undo are inverse functions of the initial state. */
  lemma DigestInverse<S(!new), B(!new)>(m: Mixer<S, B>, s: S, blocks: seq<B>, tail: B)
    requires Reversible(m)
    ensures Unfold(m.undo, m.unfinish(Digest(m, s, blocks, tail), tail), blocks) == s
    ensures Digest(m, Unfold(m.undo, m.unfinish(s, tail), blocks), blocks, tail) == s
  {
    FoldUnfold(m.step, m.undo, s, blocks);
    FoldUnfold(m.step, m.undo, m.unfinish(s, tail), blocks);
  }
}
