/**
 * Runs in which one block less than bounded progress asks for leaves a block unconfirmed.
 *
 * One node mines on two chains: block 2 on chain 0, then in view of it some blocks on each chain.  The first one
 * on chain 1 is only lifted to the next rank of block 2.
 */
module ShortRuns {
  import opened Prelude
  import opened Headers
  import opened Holdings
  import opened RankOrder
  import opened Progress
  import opened Protocol

  /** The last world of some run. */
  ghost predicate Reached(w: World, genesis: seq<Hash>, t: nat) {
    exists ws, es :: IsRun(ws, es, genesis, t) && ws[|es|] == w
  }

  /** The only node mines block h on chain c. */
  ghost function MinedNext(w: World, h: Hash, c: nat): World
    requires |w.nodes| == 1 && c < |w.nodes[0].deepest|
  {
    var s := w.nodes[0];
    World(w.pool[h := NewHeader(w.pool, s.deepest, c)],
          [s.(held := s.held + {h}, deepest := s.deepest[c := h], full := s.full + {h})])
  }

  lemma MineMore(w: World, genesis: seq<Hash>, t: nat, h: Hash, c: nat)
    requires Reached(w, genesis, t) && |w.nodes| == 1 && c < |w.nodes[0].deepest| && h !in w.pool && |w.pool| + 1 < U32
    ensures Reached(MinedNext(w, h, c), genesis, t)
  {
    var ws, es :| IsRun(ws, es, genesis, t) && ws[|es|] == w;
    var w', e := MinedNext(w, h, c), Mine(0, h, c);
    var more, ems := ws + [w'], es + [e];
    assert Step(w, e, t, w');
    assert |w'.pool| == |w.pool| + 1;
    hide Step;
    forall i | 0 <= i < |ems| ensures Step(more[i], ems[i], t, more[i + 1]) {
      if i < |es| {
        assert more[i] == ws[i] && more[i + 1] == ws[i + 1] && ems[i] == es[i];
      }
    }
    assert IsRun(more, ems, genesis, t) && more[|ems|] == w';
  }

  lemma ReachedOk(w: World, genesis: seq<Hash>, t: nat)
    requires Reached(w, genesis, t)
    ensures WorldOk(w) && |w.pool| < U32
  {
    var ws, es :| IsRun(ws, es, genesis, t) && ws[|es|] == w;
    RunOk(ws, es, genesis, t, |es|);
  }

  lemma ReachedTips(w: World, genesis: seq<Hash>, t: nat)
    requires Reached(w, genesis, t) && |w.nodes| > 0
    ensures PoolOk(w.pool) && TipsOk(w.pool, w.nodes[0].deepest) && |w.pool| < U32
  {
    ReachedOk(w, genesis, t);
    NodeTips(w.pool, w.nodes[0]);
  }

  /** All blocks of the path from position k on were mined in view of block 2. */
  ghost predicate InViewFrom(pool: Pool, p: seq<Hash>, k: nat) {
    forall i :: k <= i < |p| ==> MinedInViewOf(pool, p[i], 2)
  }

  lemma InViewStable(pool: Pool, later: Pool, tip: Hash, k: nat)
    requires Linked(pool) && AllMined(pool) && Extends(pool, later) && tip in pool && InViewFrom(pool, Path(pool, tip), k)
    ensures Path(later, tip) == Path(pool, tip) && InViewFrom(later, Path(later, tip), k)
  {
    var p := Path(pool, tip);
    PathStable(pool, later, tip);
    forall i | k <= i < |p| ensures MinedInViewOf(later, p[i], 2) {
      assert MinedInViewOf(pool, p[i], 2) && Mined(pool, p[i]);
      PathStable(pool, later, pool[p[i]].tips[pool[2].chain]);
    }
  }

  /** A block mined on top of `tip` in view of block 2. */
  lemma InViewMore(pool: Pool, later: Pool, tip: Hash, h: Hash, k: nat)
    requires Linked(pool) && AllMined(pool) && Extends(pool, later) && tip in pool && InViewFrom(pool, Path(pool, tip), k)
    requires HasParent(later, h) && later[h].parent == tip && MinedInViewOf(later, h, 2)
    ensures Path(later, h) == Path(pool, tip) + [h] && InViewFrom(later, Path(later, h), k)
  {
    InViewStable(pool, later, tip, k);
  }

  /** The chains of a view of two chains: i blocks above block 2 on chain 0, and j on chain 1, all in view of block 2. */
  ghost predicate Grown(pool: Pool, tips: seq<Hash>, i: nat, j: nat) {
    && |tips| == 2 && 2 in pool && pool[2].nextRank == 1 && pool[2].chain == 0
    && (var p := Path(pool, tips[0]); |p| == 2 + i && p[1] == 2 && InViewFrom(pool, p, 2))
    && (var q := Path(pool, tips[1]); |q| == 1 + j && InViewFrom(pool, q, 1) && (j > 0 ==> NextRank(pool, q[1]) == 1))
  }

  ghost predicate Stage(w: World, i: nat, j: nat) {
    && |w.nodes| == 1 && |w.nodes[0].deepest| == 2 && Grown(w.pool, w.nodes[0].deepest, i, j)
    && |w.pool| == 3 + i + j && (forall h :: h in w.pool ==> h < 3 + i + j)
    && (i + j == 0 ==> w.nodes[0].deepest == [2, 1] && NextRank(w.pool, 1) == 0)
  }

  /** What a mined block looks like. */
  lemma NewBlock(pool: Pool, tips: seq<Hash>, h: Hash, c: nat, i: nat, j: nat)
    requires PoolOk(pool) && TipsOk(pool, tips) && Grown(pool, tips, i, j) && c < 2 && h !in pool && |pool| < U32 - 1
    ensures var later := pool[h := NewHeader(pool, tips, c)];
      HasParent(later, h) && later[h].parent == tips[c] && MinedInViewOf(later, h, 2) && Extends(pool, later)
  {
    var later := pool[h := NewHeader(pool, tips, c)];
    PathStable(pool, later, tips[0]);
    assert Path(pool, tips[0])[1] == 2;
  }

  lemma OnChainZero(pool: Pool, tips: seq<Hash>, h: Hash, i: nat, j: nat)
    requires PoolOk(pool) && TipsOk(pool, tips) && Grown(pool, tips, i, j) && h !in pool && |pool| < U32 - 1
    ensures Grown(pool[h := NewHeader(pool, tips, 0)], tips[0 := h], i + 1, j)
  {
    var later := pool[h := NewHeader(pool, tips, 0)];
    NewBlock(pool, tips, h, 0, i, j);
    InViewMore(pool, later, tips[0], h, 2);
    InViewStable(pool, later, tips[1], 1);
  }

  lemma OnChainOne(pool: Pool, tips: seq<Hash>, h: Hash, i: nat, j: nat)
    requires PoolOk(pool) && TipsOk(pool, tips) && Grown(pool, tips, i, j) && h !in pool && |pool| < U32 - 1
    requires j == 0 ==> tips == [2, 1] && NextRank(pool, 1) == 0
    ensures Grown(pool[h := NewHeader(pool, tips, 1)], tips[1 := h], i, j + 1)
  {
    var later := pool[h := NewHeader(pool, tips, 1)];
    NewBlock(pool, tips, h, 1, i, j);
    InViewMore(pool, later, tips[1], h, 1);
    InViewStable(pool, later, tips[0], 2);
    TrailingIsHighest(pool, tips);
    if j > 0 { assert Path(later, h)[1] == Path(pool, tips[1])[1]; }
  }

  lemma NextStage(w: World, genesis: seq<Hash>, t: nat, c: nat, i: nat, j: nat)
    requires Reached(w, genesis, t) && Stage(w, i, j) && c < 2 && 4 + i + j < U32 && (j == 0 ==> c == 1 && i == 0)
    ensures Reached(MinedNext(w, 3 + i + j, c), genesis, t)
    ensures Stage(MinedNext(w, 3 + i + j, c), if c == 0 then i + 1 else i, if c == 1 then j + 1 else j)
  {
    hide Grown, NewHeader, Reached, PoolOk, TipsOk, NodeOk;
    var h := 3 + i + j;
    ReachedTips(w, genesis, t);
    MineMore(w, genesis, t, h, c);
    if c == 0 {
      OnChainZero(w.pool, w.nodes[0].deepest, h, i, j);
    } else {
      OnChainOne(w.pool, w.nodes[0].deepest, h, i, j);
    }
  }

  /** The node mines n blocks on chain 1 or 0. */
  lemma {:induction false} MineMany(w: World, genesis: seq<Hash>, t: nat, c: nat, i: nat, j: nat, n: nat) returns (w': World)
    requires Reached(w, genesis, t) && Stage(w, i, j) && c < 2 && 3 + i + j + n < U32 && (j == 0 ==> c == 1 && i == 0)
    ensures Reached(w', genesis, t) && Stage(w', if c == 0 then i + n else i, if c == 1 then j + n else j)
    decreases n
  {
    w' := w;
    if n > 0 {
      NextStage(w, genesis, t, c, i, j);
      w' := MinedNext(w, 3 + i + j, c);
      w' := MineMany(w', genesis, t, c, if c == 0 then i + 1 else i, if c == 1 then j + 1 else j, n - 1);
    }
  }

  /** One node with two chains. */
  function Start(): World {
    World(map[0 := Header(0, 0, 0, 0, 0, []), 1 := Header(1, 1, 0, 0, 0, [])], [NodeState({}, [0, 1], {0, 1}, {})])
  }

  /** Block 2 is mined on chain 0. */
  lemma FirstStage(t: nat) returns (w: World)
    ensures Reached(w, [0, 1], t) && Stage(w, 0, 0)
  {
    hide Reached, Stage, MinedNext;
    StartReached(t);
    FirstIsStage();
    MineMore(Start(), [0, 1], t, 2, 0);
    w := MinedNext(Start(), 2, 0);
  }

  lemma FirstIsStage()
    ensures Stage(MinedNext(Start(), 2, 0), 0, 0)
  {
    hide Grown;
    var w := MinedNext(Start(), 2, 0);
    FirstGrown(w.pool);
    assert w.nodes[0].deepest == [2, 1];
  }

  lemma FirstGrown(pool: Pool)
    requires 0 in pool && pool[0].depth == 0 && 1 in pool && pool[1].depth == 0
    requires 2 in pool && pool[2] == Header(0, 0, 1, 0, 1, [0, 1])
    ensures Grown(pool, [2, 1], 0, 0)
  {
    assert Path(pool, 0) == [0] && Path(pool, 1) == [1];
    assert Path(pool, 2) == [0] + [2];
  }

  lemma StartReached(t: nat)
    ensures Reached(Start(), [0, 1], t)
  {
    var ws, es: seq<Event> := [Start()], [];
    assert (set h: Hash | h in [0, 1]) == {0, 1};
    assert Init(Start(), [0, 1]);
    assert IsRun(ws, es, [0, 1], t) && ws[|es|] == Start();
  }

  /** The partial chain 1 ends at its first block, which is not above block 2. */
  lemma TooFew(pool: Pool, tips: seq<Hash>, t: nat)
    requires Grown(pool, tips, t + 1, t + 1)
    ensures Deep(pool, tips, t) && 2 !in Eligible(pool, tips, t)
    ensures forall c :: 0 <= c < 2 ==> ExtendedInViewOf(pool, tips[c], 2, t + 1)
  {
    TooFewBar(pool, tips, t);
    hide Path, Bar;
    assert Partial(pool, tips[0], t) != [] && Partial(pool, tips[1], t) != [];
  }

  lemma TooFewBar(pool: Pool, tips: seq<Hash>, t: nat)
    requires Grown(pool, tips, t + 1, t + 1)
    ensures Bar(pool, tips, t) <= 1
  {
    assert Partial(pool, tips[1], t) == Path(pool, tips[1])[..2];
    BarIsLow(pool, tips, t, 1);
  }

  /**
   * T + 1 blocks are not enough for progress, for any T: in this run both chains have been extended by t + 1
   * blocks in view of block 2, and block 2 is not eligible.
   */
  lemma OneBlockLessIsTooFew(t: nat) returns (w: World)
    requires 2 * t + 6 < U32
    ensures Reached(w, [0, 1], t) && |w.nodes| == 1 && |w.nodes[0].deepest| == 2 && Deep(w.pool, w.nodes[0].deepest, t)
    ensures forall c :: 0 <= c < 2 ==> ExtendedInViewOf(w.pool, w.nodes[0].deepest[c], 2, t + 1)
    ensures 2 !in Eligible(w.pool, w.nodes[0].deepest, t)
  {
    w := FirstStage(t);
    w := MineMany(w, [0, 1], t, 1, 0, 0, t + 1);
    w := MineMany(w, [0, 1], t, 0, 0, t + 1, t + 1);
    hide Reached, Grown;
    TooFew(w.pool, w.nodes[0].deepest, t);
  }
}
