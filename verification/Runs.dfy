/** Safety and progress of confirmation over whole runs of the protocol, at any nodes and any times. */
module Runs {
  import opened Prelude
  import opened Headers
  import opened Holdings
  import opened RankOrder
  import opened Progress
  import opened Protocol

  // ---------- one pool for all times ----------

  lemma PartialStable(pool: Pool, later: Pool, tip: Hash, t: nat)
    requires Linked(pool) && Extends(pool, later) && tip in pool
    ensures Partial(later, tip, t) == Partial(pool, tip, t)
    ensures forall h :: h in Partial(pool, tip, t) ==> h in pool && NextRank(later, h) == NextRank(pool, h)
    ensures EndRank(later, tip, t) == EndRank(pool, tip, t)
  {
    PathStable(pool, later, tip);
    PathShape(pool, tip);
    var p := Partial(pool, tip, t);
    forall h | h in p ensures h in pool {
      var i :| 0 <= i < |p| && p[i] == h;
      PartialMember(pool, tip, t, i);
    }
    if p != [] {
      assert Last(p) in p;
    }
  }

  lemma {:induction false} BarStable(pool: Pool, later: Pool, tips: seq<Hash>, t: nat)
    requires Linked(pool) && Extends(pool, later) && forall c :: 0 <= c < |tips| ==> tips[c] in pool
    ensures Bar(later, tips, t) == Bar(pool, tips, t)
    decreases |tips|
  {
    if tips != [] {
      var rest := tips[..|tips| - 1];
      assert forall c :: 0 <= c < |rest| ==> rest[c] == tips[c];
      BarStable(pool, later, rest, t);
      PartialStable(pool, later, tips[|tips| - 1], t);
    }
  }

  lemma EligibleStable(pool: Pool, later: Pool, tips: seq<Hash>, t: nat)
    requires Linked(pool) && Extends(pool, later) && TipsOk(pool, tips)
    ensures Eligible(later, tips, t) == Eligible(pool, tips, t)
    ensures Deep(later, tips, t) == Deep(pool, tips, t)
  {
    BarStable(pool, later, tips, t);
    forall c | 0 <= c < |tips|
      ensures Partial(later, tips[c], t) == Partial(pool, tips[c], t)
      ensures forall h :: h in Partial(pool, tips[c], t) ==> NextRank(later, h) == NextRank(pool, h)
    {
      PartialStable(pool, later, tips[c], t);
    }
  }

  /** The view of node n at time i. */
  ghost function ViewAt(ws: seq<World>, i: nat, n: nat): seq<Hash>
    requires i < |ws| && n < |ws[i].nodes|
  {
    ws[i].nodes[n].deepest
  }

  lemma {:induction false} SameNodes(ws: seq<World>, es: seq<Event>, genesis: seq<Hash>, t: nat, i: nat)
    requires IsRun(ws, es, genesis, t) && i < |ws|
    ensures |ws[i].nodes| == |ws[0].nodes|
    ensures forall n :: 0 <= n < |ws[i].nodes| ==> |ws[i].nodes[n].deepest| == |genesis|
  {
    if i > 0 {
      SameNodes(ws, es, genesis, t, i - 1);
      assert Step(ws[i - 1], es[i - 1], t, ws[i]);
    }
  }

  /** A view of a run is a proper view of the final pool, with the eligible blocks it had at the time. */
  lemma ViewInFinalPool(ws: seq<World>, es: seq<Event>, genesis: seq<Hash>, t: nat, i: nat, n: nat)
    requires IsRun(ws, es, genesis, t) && i < |ws| && n < |ws[i].nodes|
    ensures var pool := ws[|es|].pool; var tips := ViewAt(ws, i, n);
      && Linked(pool) && Ranked(pool) && AllMined(pool)
      && TipsOk(pool, tips) && |tips| == |genesis|
      && Eligible(pool, tips, t) == Eligible(ws[i].pool, tips, t)
      && Deep(pool, tips, t) == Deep(ws[i].pool, tips, t)
      && Bar(pool, tips, t) == Bar(ws[i].pool, tips, t)
  {
    RunOk(ws, es, genesis, t, i);
    RunOk(ws, es, genesis, t, |es|);
    PoolsGrow(ws, es, genesis, t, i, |es|);
    SameNodes(ws, es, genesis, t, i);
    NodeTips(ws[i].pool, ws[i].nodes[n]);
    EligibleStable(ws[i].pool, ws[|es|].pool, ViewAt(ws, i, n), t);
    BarStable(ws[i].pool, ws[|es|].pool, ViewAt(ws, i, n), t);
  }

  // ---------- agreement ----------

  /**
   * Agreement over runs: at any two nodes and times, if the partial chains agree, the listings of the eligible
   * blocks by (next rank, chain) are prefixes of one another.
   */
  lemma AgreementOverRuns(ws: seq<World>, es: seq<Event>, genesis: seq<Hash>, t: nat, i: nat, a: nat, j: nat, b: nat,
                          s: seq<Hash>, l: seq<Hash>)
    requires IsRun(ws, es, genesis, t) && i < |ws| && a < |ws[i].nodes| && j < |ws| && b < |ws[j].nodes|
    requires Deep(ws[i].pool, ViewAt(ws, i, a), t) && Deep(ws[j].pool, ViewAt(ws, j, b), t)
    requires Agreeing(ws[|es|].pool, ViewAt(ws, i, a), ViewAt(ws, j, b), t)
    requires Lists(ws[|es|].pool, s, Eligible(ws[i].pool, ViewAt(ws, i, a), t))
    requires Lists(ws[|es|].pool, l, Eligible(ws[j].pool, ViewAt(ws, j, b), t))
    ensures Comparable(s, l)
  {
    ViewInFinalPool(ws, es, genesis, t, i, a);
    ViewInFinalPool(ws, es, genesis, t, j, b);
    Agreement(ws[|es|].pool, ViewAt(ws, i, a), ViewAt(ws, j, b), t, s, l);
  }

  // ---------- finality ----------

  /** From time i to time j the partial chains of node n only grow. */
  ghost predicate GrowsOver(ws: seq<World>, t: nat, n: nat, i: nat, j: nat)
    requires i <= j < |ws| && forall k :: i <= k <= j ==> n < |ws[k].nodes|
  {
    forall k :: i <= k < j ==> Grows(ws[|ws| - 1].pool, ViewAt(ws, k, n), ViewAt(ws, k + 1, n), t)
  }

  lemma {:induction false} GrowsThroughout(ws: seq<World>, t: nat, n: nat, i: nat, j: nat)
    requires i <= j < |ws| && forall k :: i <= k <= j ==> n < |ws[k].nodes|
    requires GrowsOver(ws, t, n, i, j)
    ensures Grows(ws[|ws| - 1].pool, ViewAt(ws, i, n), ViewAt(ws, j, n), t)
    decreases j - i
  {
    if i < j {
      GrowsThroughout(ws, t, n, i, j - 1);
      var pool := ws[|ws| - 1].pool;
      forall c | 0 <= c < |ViewAt(ws, i, n)|
        ensures Partial(pool, ViewAt(ws, i, n)[c], t) <= Partial(pool, ViewAt(ws, j, n)[c], t)
      {
        assert Grows(pool, ViewAt(ws, j - 1, n), ViewAt(ws, j - 1 + 1, n), t);
        assert Partial(pool, ViewAt(ws, i, n)[c], t) <= Partial(pool, ViewAt(ws, j - 1, n)[c], t);
      }
    }
  }

  /**
   * Finality over runs: while a node's partial chains only grow, its bar never falls, no block becomes
   * eligible below an earlier bar, and the listing of its eligible blocks only grows at the end.
   */
  lemma FinalityOverRuns(ws: seq<World>, es: seq<Event>, genesis: seq<Hash>, t: nat, n: nat, i: nat, j: nat,
                         s: seq<Hash>, l: seq<Hash>)
    requires IsRun(ws, es, genesis, t) && i <= j < |ws| && forall k :: i <= k <= j ==> n < |ws[k].nodes|
    requires GrowsOver(ws, t, n, i, j)
    requires Deep(ws[i].pool, ViewAt(ws, i, n), t) && Deep(ws[j].pool, ViewAt(ws, j, n), t)
    requires Lists(ws[|es|].pool, s, Eligible(ws[i].pool, ViewAt(ws, i, n), t))
    requires Lists(ws[|es|].pool, l, Eligible(ws[j].pool, ViewAt(ws, j, n), t))
    ensures s <= l
    ensures Bar(ws[i].pool, ViewAt(ws, i, n), t) <= Bar(ws[j].pool, ViewAt(ws, j, n), t)
    ensures forall h :: (h in Eligible(ws[j].pool, ViewAt(ws, j, n), t) &&
                         NextRank(ws[|es|].pool, h) < Bar(ws[i].pool, ViewAt(ws, i, n), t)) ==>
              h in Eligible(ws[i].pool, ViewAt(ws, i, n), t)
  {
    ViewInFinalPool(ws, es, genesis, t, i, n);
    ViewInFinalPool(ws, es, genesis, t, j, n);
    GrowsThroughout(ws, t, n, i, j);
    Finality(ws[|es|].pool, ViewAt(ws, i, n), ViewAt(ws, j, n), t, s, l);
  }

  // ---------- what was committed ----------

  /** Whatever a node has committed was eligible for it at some earlier time. */
  lemma {:induction false} CommittedWasEligible(ws: seq<World>, es: seq<Event>, genesis: seq<Hash>, t: nat, i: nat,
      n: nat, h: Hash)
    returns (k: nat)
    requires IsRun(ws, es, genesis, t) && i < |ws| && n < |ws[i].nodes| && h in ws[i].nodes[n].committed
    ensures k < i && n < |ws[k].nodes|
    ensures h in Eligible(ws[k].pool, ViewAt(ws, k, n), t) && Deep(ws[k].pool, ViewAt(ws, k, n), t)
    ensures !IsGenesis(ws[k].pool, h)
  {
    k := i;
    if i > 0 {
      assert Step(ws[i - 1], es[i - 1], t, ws[i]);
      if h in ws[i - 1].nodes[n].committed {
        k := CommittedWasEligible(ws, es, genesis, t, i - 1, n, h);
      } else {
        k := i - 1;
      }
    }
  }

  /** All pairs of views that are deep enough to commit agree, over the whole run. */
  ghost predicate AlwaysAgreeing(ws: seq<World>, t: nat)
    requires |ws| > 0
  {
    forall i, a, j, b {:trigger Agreeing(ws[|ws| - 1].pool, ViewAt(ws, i, a), ViewAt(ws, j, b), t)} ::
      0 <= i < |ws| && 0 <= a < |ws[i].nodes| && 0 <= j < |ws| && 0 <= b < |ws[j].nodes| &&
      Deep(ws[i].pool, ViewAt(ws, i, a), t) && Deep(ws[j].pool, ViewAt(ws, j, b), t) ==>
        Agreeing(ws[|ws| - 1].pool, ViewAt(ws, i, a), ViewAt(ws, j, b), t)
  }

  /**
   * No committed block is ever contradicted: whenever some node's bar is above a block committed anywhere, at
   * any time, the block is eligible for that node too.
   */
  lemma CommittedEverywhere(ws: seq<World>, es: seq<Event>, genesis: seq<Hash>, t: nat, i: nat, a: nat, j: nat, b: nat,
      h: Hash)
    requires IsRun(ws, es, genesis, t) && AlwaysAgreeing(ws, t)
    requires i < |ws| && a < |ws[i].nodes| && h in ws[i].nodes[a].committed
    requires j < |ws| && b < |ws[j].nodes| && Deep(ws[j].pool, ViewAt(ws, j, b), t)
    requires NextRank(ws[|es|].pool, h) < Bar(ws[j].pool, ViewAt(ws, j, b), t)
    ensures h in Eligible(ws[j].pool, ViewAt(ws, j, b), t)
  {
    var k := CommittedWasEligible(ws, es, genesis, t, i, a, h);
    assert ws[|ws| - 1] == ws[|es|];
    SharedEligible(ws, es, genesis, t, k, a, j, b, h);
  }

  lemma SharedEligible(ws: seq<World>, es: seq<Event>, genesis: seq<Hash>, t: nat, i: nat, a: nat, j: nat, b: nat,
      h: Hash)
    requires IsRun(ws, es, genesis, t)
    requires i < |ws| && a < |ws[i].nodes| && j < |ws| && b < |ws[j].nodes|
    requires Deep(ws[i].pool, ViewAt(ws, i, a), t) && Deep(ws[j].pool, ViewAt(ws, j, b), t)
    requires Agreeing(ws[|es|].pool, ViewAt(ws, i, a), ViewAt(ws, j, b), t)
    requires h in Eligible(ws[i].pool, ViewAt(ws, i, a), t)
    requires NextRank(ws[|es|].pool, h) < Bar(ws[j].pool, ViewAt(ws, j, b), t)
    ensures h in Eligible(ws[j].pool, ViewAt(ws, j, b), t)
  {
    ViewInFinalPool(ws, es, genesis, t, i, a);
    ViewInFinalPool(ws, es, genesis, t, j, b);
    EligibleWithin(ws[|es|].pool, ViewAt(ws, i, a), ViewAt(ws, j, b), t, h);
  }

  /** A committed block stays a mined, non-genesis block. */
  lemma CommittedIsMined(ws: seq<World>, es: seq<Event>, genesis: seq<Hash>, t: nat, i: nat, a: nat, j: nat, h: Hash)
    requires IsRun(ws, es, genesis, t)
    requires i < |ws| && a < |ws[i].nodes| && h in ws[i].nodes[a].committed && j < |ws|
    ensures !IsGenesis(ws[j].pool, h)
  {
    var k := CommittedWasEligible(ws, es, genesis, t, i, a, h);
    RunOk(ws, es, genesis, t, k);
    NodeTips(ws[k].pool, ws[k].nodes[a]);
    EligibleInPool(ws[k].pool, ViewAt(ws, k, a), t, h);
    PoolsGrow(ws, es, genesis, t, k, |es|);
    PoolsGrow(ws, es, genesis, t, j, |es|);
  }

  /**
   * What one node has committed, every other node commits too: the next commit pass at a node whose bar is
   * above the block, once the block is full there, has it committed.
   */
  lemma CommitCatchesUp(ws: seq<World>, es: seq<Event>, genesis: seq<Hash>, t: nat, i: nat, a: nat, j: nat, h: Hash)
    requires IsRun(ws, es, genesis, t) && AlwaysAgreeing(ws, t)
    requires i < |ws| && a < |ws[i].nodes| && h in ws[i].nodes[a].committed
    requires j < |es| && es[j].Commit? && es[j].n < |ws[j].nodes| && Deep(ws[j].pool, ViewAt(ws, j, es[j].n), t)
    requires NextRank(ws[|es|].pool, h) < Bar(ws[j].pool, ViewAt(ws, j, es[j].n), t)
    requires h in ws[j].nodes[es[j].n].full && h !in es[j].late
    ensures es[j].n < |ws[j + 1].nodes| && h in ws[j + 1].nodes[es[j].n].committed
  {
    CommittedEverywhere(ws, es, genesis, t, i, a, j, es[j].n, h);
    CommittedIsMined(ws, es, genesis, t, i, a, j, h);
    assert Step(ws[j], es[j], t, ws[j + 1]);
  }

  // ---------- what a commit pass leaves committed ----------

  /** Only full blocks are committed. */
  lemma {:induction false} CommittedIsFull(ws: seq<World>, es: seq<Event>, genesis: seq<Hash>, t: nat, i: nat, n: nat)
    requires IsRun(ws, es, genesis, t) && i < |ws| && n < |ws[i].nodes|
    ensures ws[i].nodes[n].committed <= ws[i].nodes[n].full
  {
    if i > 0 {
      assert Step(ws[i - 1], es[i - 1], t, ws[i]);
      CommittedIsFull(ws, es, genesis, t, i - 1, n);
    }
  }

  /** The full blocks of a view that may be confirmed. */
  ghost function Confirmable(ws: seq<World>, i: nat, n: nat, t: nat): set<Hash>
    requires i < |ws| && n < |ws[i].nodes|
  {
    set h | h in Eligible(ws[i].pool, ViewAt(ws, i, n), t) && h in ws[i].nodes[n].full && !IsGenesis(ws[i].pool, h)
  }

  /** The pass finds all its blocks mined by the local clock, and all that was committed before below its bar. */
  ghost predicate Settled(ws: seq<World>, i: nat, n: nat, late: set<Hash>, t: nat)
    requires 0 < |ws| && i < |ws| && n < |ws[i].nodes|
  {
    && Deep(ws[i].pool, ViewAt(ws, i, n), t) && late !! Confirmable(ws, i, n, t)
    && forall h :: h in ws[i].nodes[n].committed ==> NextRank(ws[|ws| - 1].pool, h) < Bar(ws[i].pool, ViewAt(ws, i, n), t)
  }

  /** After such a pass exactly the full blocks that may be confirmed are committed. */
  lemma CommitIsExact(ws: seq<World>, es: seq<Event>, genesis: seq<Hash>, t: nat, i: nat)
    requires IsRun(ws, es, genesis, t) && AlwaysAgreeing(ws, t) && i < |es| && es[i].Commit? && es[i].n < |ws[i].nodes|
    requires Settled(ws, i, es[i].n, es[i].late, t)
    ensures es[i].n < |ws[i + 1].nodes| && ws[i + 1].nodes[es[i].n].committed == Confirmable(ws, i, es[i].n, t)
  {
    var n := es[i].n;
    assert Step(ws[i], es[i], t, ws[i + 1]);
    forall h | h in ws[i].nodes[n].committed ensures h in Confirmable(ws, i, n, t) {
      CommittedEverywhere(ws, es, genesis, t, i, n, i, n, h);
      CommittedIsMined(ws, es, genesis, t, i, n, i, h);
      CommittedIsFull(ws, es, genesis, t, i, n);
    }
    hide Eligible, Bar, AlwaysAgreeing;
  }

  /**
   * What two nodes do agree on: after such passes with the same bar, nodes that have the same of these blocks in
   * full have committed the same blocks.
   */
  lemma SameBarSameCommits(ws: seq<World>, es: seq<Event>, genesis: seq<Hash>, t: nat, i: nat, j: nat)
    requires IsRun(ws, es, genesis, t) && AlwaysAgreeing(ws, t)
    requires i < |es| && es[i].Commit? && es[i].n < |ws[i].nodes| && Settled(ws, i, es[i].n, es[i].late, t)
    requires j < |es| && es[j].Commit? && es[j].n < |ws[j].nodes| && Settled(ws, j, es[j].n, es[j].late, t)
    requires Bar(ws[i].pool, ViewAt(ws, i, es[i].n), t) == Bar(ws[j].pool, ViewAt(ws, j, es[j].n), t)
    requires forall h :: h in Eligible(ws[i].pool, ViewAt(ws, i, es[i].n), t) ==>
      (h in ws[i].nodes[es[i].n].full <==> h in ws[j].nodes[es[j].n].full)
    ensures es[i].n < |ws[i + 1].nodes| && es[j].n < |ws[j + 1].nodes|
    ensures ws[i + 1].nodes[es[i].n].committed == ws[j + 1].nodes[es[j].n].committed
  {
    hide AlwaysAgreeing, Eligible, Bar;
    CommitIsExact(ws, es, genesis, t, i);
    CommitIsExact(ws, es, genesis, t, j);
    SameBarSameEligible(ws, es, genesis, t, i, es[i].n, j, es[j].n);
    SameGenesis(ws, es, genesis, t, i, es[i].n, j, es[j].n);
  }

  lemma SameBarSameEligible(ws: seq<World>, es: seq<Event>, genesis: seq<Hash>, t: nat, i: nat, a: nat, j: nat, b: nat)
    requires IsRun(ws, es, genesis, t) && AlwaysAgreeing(ws, t)
    requires i < |ws| && a < |ws[i].nodes| && Deep(ws[i].pool, ViewAt(ws, i, a), t)
    requires j < |ws| && b < |ws[j].nodes| && Deep(ws[j].pool, ViewAt(ws, j, b), t)
    requires Bar(ws[i].pool, ViewAt(ws, i, a), t) == Bar(ws[j].pool, ViewAt(ws, j, b), t)
    ensures Eligible(ws[i].pool, ViewAt(ws, i, a), t) == Eligible(ws[j].pool, ViewAt(ws, j, b), t)
  {
    assert ws[|ws| - 1] == ws[|es|];
    assert Agreeing(ws[|ws| - 1].pool, ViewAt(ws, i, a), ViewAt(ws, j, b), t);
    assert Agreeing(ws[|ws| - 1].pool, ViewAt(ws, j, b), ViewAt(ws, i, a), t);
    hide AlwaysAgreeing;
    ViewInFinalPool(ws, es, genesis, t, i, a);
    ViewInFinalPool(ws, es, genesis, t, j, b);
    LowerBarDecides(ws[|es|].pool, ViewAt(ws, i, a), ViewAt(ws, j, b), t);
    LowerBarDecides(ws[|es|].pool, ViewAt(ws, j, b), ViewAt(ws, i, a), t);
  }

  lemma SameGenesis(ws: seq<World>, es: seq<Event>, genesis: seq<Hash>, t: nat, i: nat, a: nat, j: nat, b: nat)
    requires IsRun(ws, es, genesis, t) && i < |ws| && a < |ws[i].nodes| && j < |ws| && b < |ws[j].nodes|
    requires Eligible(ws[i].pool, ViewAt(ws, i, a), t) == Eligible(ws[j].pool, ViewAt(ws, j, b), t)
    ensures forall h :: h in Eligible(ws[i].pool, ViewAt(ws, i, a), t) ==> (IsGenesis(ws[i].pool, h) <==> IsGenesis(ws[j].pool, h))
  {
    hide Eligible;
    PoolsGrow(ws, es, genesis, t, i, |es|);
    PoolsGrow(ws, es, genesis, t, j, |es|);
    EligibleMined(ws, es, genesis, t, i, a);
    EligibleMined(ws, es, genesis, t, j, b);
  }

  lemma EligibleMined(ws: seq<World>, es: seq<Event>, genesis: seq<Hash>, t: nat, i: nat, a: nat)
    requires IsRun(ws, es, genesis, t) && i < |ws| && a < |ws[i].nodes|
    ensures forall h :: h in Eligible(ws[i].pool, ViewAt(ws, i, a), t) ==> h in ws[i].pool
  {
    RunOk(ws, es, genesis, t, i);
    NodeTips(ws[i].pool, ws[i].nodes[a]);
    forall h | h in Eligible(ws[i].pool, ViewAt(ws, i, a), t) ensures h in ws[i].pool {
      EligibleInPool(ws[i].pool, ViewAt(ws, i, a), t, h);
    }
  }

  lemma EligibleInPool(pool: Pool, tips: seq<Hash>, t: nat, h: Hash)
    requires Linked(pool) && h in Eligible(pool, tips, t) && forall c :: 0 <= c < |tips| ==> tips[c] in pool
    ensures h in pool
  {
    var c :| 0 <= c < |tips| && h in Partial(pool, tips[c], t);
    var i :| 0 <= i < |Partial(pool, tips[c], t)| && Partial(pool, tips[c], t)[i] == h;
    PartialMember(pool, tips[c], t, i);
  }

  // ---------- progress ----------

  /** Bounded progress in a run: t + 2 blocks per chain, mined in view of b, confirm b. */
  lemma ProgressOverRuns(ws: seq<World>, es: seq<Event>, genesis: seq<Hash>, t: nat, i: nat, n: nat, b: Hash)
    requires IsRun(ws, es, genesis, t) && i < |ws| && n < |ws[i].nodes|
    requires b in ws[i].pool && ws[i].pool[b].chain < |genesis|
    requires forall c :: 0 <= c < |ViewAt(ws, i, n)| ==> ExtendedInViewOf(ws[i].pool, ViewAt(ws, i, n)[c], b, t + 2)
    ensures Deep(ws[i].pool, ViewAt(ws, i, n), t) && b in Eligible(ws[i].pool, ViewAt(ws, i, n), t)
  {
    RunOk(ws, es, genesis, t, i);
    SameNodes(ws, es, genesis, t, i);
    NodeTips(ws[i].pool, ws[i].nodes[n]);
    BoundedProgress(ws[i].pool, ViewAt(ws, i, n), b, t);
  }
}
