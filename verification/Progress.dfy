/**
 * Bounded progress of the confirmation bar.
 *
 * Mining lifts the next rank of a new block to that of the highest chain end in view, so slow chains keep
 * up: T + 2 blocks per chain, mined in view of a block b, confirm b.
 */
module Progress {
  import opened Prelude
  import opened Headers
  import opened RankOrder

  /** The mining rule as a property of every mined header. */
  ghost predicate Mined(pool: Pool, h: Hash)
    requires h in pool
  {
    var x := pool[h];
    && x.chain < |x.tips|
    && x.parent == x.tips[x.chain]
    && TipsOk(pool, x.tips)
    && forall c :: 0 <= c < |x.tips| ==> pool[x.tips[c]].nextRank <= x.nextRank
  }

  ghost predicate AllMined(pool: Pool) {
    forall h :: h in pool && pool[h].depth > 0 ==> Mined(pool, h)
  }

  /** When `h` was mined, the miner's view had `b` on its longest chain. */
  ghost predicate MinedInViewOf(pool: Pool, h: Hash, b: Hash) {
    && h in pool && b in pool && pool[h].depth > 0
    && pool[b].chain < |pool[h].tips|
    && b in Path(pool, pool[h].tips[pool[b].chain])
  }

  /** Chain `tip` has been extended by `n` blocks, all mined in view of `b`. */
  ghost predicate ExtendedInViewOf(pool: Pool, tip: Hash, b: Hash, n: nat) {
    var p := Path(pool, tip);
    n <= |p| && forall i :: |p| - n <= i < |p| ==> MinedInViewOf(pool, p[i], b)
  }

  lemma OnPathRank(pool: Pool, tip: Hash, b: Hash)
    requires Linked(pool) && Ranked(pool) && tip in pool && b in Path(pool, tip)
    ensures NextRank(pool, b) <= NextRank(pool, tip)
  {
    var p := Path(pool, tip);
    var i :| 0 <= i < |p| && p[i] == b;
    if i < |p| - 1 {
      RanksClimb(pool, tip, i, |p| - 1);
    }
  }

  /** A block mined in view of `b` has at least its next rank. */
  lemma InViewRank(pool: Pool, h: Hash, b: Hash)
    requires Linked(pool) && Ranked(pool) && AllMined(pool) && MinedInViewOf(pool, h, b)
    ensures NextRank(pool, b) <= NextRank(pool, h)
  {
    assert Mined(pool, h);
    OnPathRank(pool, pool[h].tips[pool[b].chain], b);
  }

  /** The partial end of a chain extended by t + 2 blocks in view of `b` lies strictly above `b`. */
  lemma EndAbove(pool: Pool, tip: Hash, b: Hash, t: nat)
    requires Linked(pool) && Ranked(pool) && AllMined(pool) && tip in pool
    requires ExtendedInViewOf(pool, tip, b, t + 2)
    ensures Partial(pool, tip, t) != [] && NextRank(pool, b) < EndRank(pool, tip, t)
  {
    var p := Path(pool, tip);
    InViewRank(pool, p[|p| - t - 2], b);
    RanksClimb(pool, tip, |p| - t - 2, |p| - t - 1);
    assert Last(Partial(pool, tip, t)) == p[|p| - t - 1];
  }

  /** On its own chain, `b` lies below the blocks mined in view of it. */
  lemma BelowItsExtension(pool: Pool, tip: Hash, b: Hash, t: nat)
    requires Linked(pool) && Ranked(pool) && AllMined(pool) && tip in pool
    requires pool[tip].chain == (if b in pool then pool[b].chain else 0)
    requires ExtendedInViewOf(pool, tip, b, t + 2)
    ensures b in Partial(pool, tip, t)
  {
    var p := Path(pool, tip);
    var i := |p| - t - 2;
    PathShape(pool, tip);
    var x := p[i];
    assert MinedInViewOf(pool, x, b) && Mined(pool, x) && pool[x].chain == pool[b].chain;
    PathParent(pool, x);
    assert Path(pool, x) == p[..i + 1];
    assert b in p[..i];
    hide *;
    var k :| 0 <= k < i && p[..i][k] == b;
  }

  /**
   * Bounded progress: once every chain of a view has been extended by t + 2 blocks mined in view of `b`, the
   * bar is above `b` and `b` is eligible.
   */
  lemma BoundedProgress(pool: Pool, tips: seq<Hash>, b: Hash, t: nat)
    requires Linked(pool) && Ranked(pool) && AllMined(pool) && TipsOk(pool, tips)
    requires b in pool && pool[b].chain < |tips|
    requires forall c :: 0 <= c < |tips| ==> ExtendedInViewOf(pool, tips[c], b, t + 2)
    ensures Ready(pool, tips, t)
    ensures NextRank(pool, b) < Bar(pool, tips, t)
    ensures b in Eligible(pool, tips, t)
  {
    forall c | 0 <= c < |tips|
      ensures Partial(pool, tips[c], t) != [] && NextRank(pool, b) < EndRank(pool, tips[c], t)
    {
      EndAbove(pool, tips[c], b, t);
    }
    var c := BarIsReached(pool, tips, t);
    BelowItsExtension(pool, tips[pool[b].chain], b, t);
  }

}
