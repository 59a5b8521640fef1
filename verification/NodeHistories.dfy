/**
 * What several block stores do, each on its own, is a run of the protocol.
 *
 * A block store knows one pool: every header that is mined in the whole run, at whatever time and node.  The
 * protocol grows its pool block by block.  A node that holds only headers mined so far cannot tell the two apart.
 */
module NodeHistories {
  import opened Prelude
  import opened Headers
  import opened Holdings
  import opened RankOrder
  import opened Progress
  import opened Protocol
  import opened Runs
  import opened BlockStart

  // ---------- one node's step in a pool and in a later one ----------

  /** `pool` has the genesis blocks of `all` and headers as they are there. */
  ghost predicate SoFar(pool: Pool, all: Pool) {
    Linked(pool) && Extends(pool, all) && forall h :: IsGenesis(all, h) ==> h in pool
  }

  /** Only blocks of the earlier pool can be in a main tree. */
  lemma AnchoredStable(pool: Pool, all: Pool, held: set<Hash>, h: Hash)
    requires SoFar(pool, all) && HeldOk(pool, held)
    ensures Anchored(all, held, h) <==> Anchored(pool, held, h)
    ensures Anchored(all, held, h) ==> h in pool
  {
    if h in pool {
      RootStable(pool, all, held, h);
      RootShape(pool, held, h);
    }
  }

  lemma UnderStable(pool: Pool, all: Pool, held: set<Hash>, h: Hash, x: Hash)
    requires SoFar(pool, all) && HeldOk(pool, held)
    ensures Under(all, held, h, x) <==> Under(pool, held, h, x)
    ensures Under(all, held, h, x) ==> x in pool
  {
    AnchoredStable(pool, all, held, x);
    if x in pool { PathStable(pool, all, x); }
  }

  lemma MovesStable(pool: Pool, all: Pool, held: set<Hash>, h: Hash, was: Hash, now: Hash)
    requires SoFar(pool, all) && HeldOk(pool, held) && was in pool
    ensures DeepestMoves(all, held, h, was, now) <==> DeepestMoves(pool, held, h, was, now)
  {
    forall x
      ensures Under(all, held, h, x) <==> Under(pool, held, h, x)
      ensures Under(all, held, h, x) ==> Depth(all, x) == Depth(pool, x)
    {
      UnderStable(pool, all, held, h, x);
    }
    hide Under;
  }

  lemma ReceivesStable(pool: Pool, all: Pool, s: NodeState, h: Hash, s': NodeState)
    requires SoFar(pool, all) && NodeOk(pool, s) && h in pool
    ensures Receives(all, s, h, s') <==> Receives(pool, s, h, s')
  {
    var c := pool[h].chain;
    if pool[h].depth > 0 && c < |s.deepest| && c < |s'.deepest| && s'.held == s.held + {h} {
      assert IsDeepest(pool, s.held, c, s.deepest[c]);
      MovesStable(pool, all, s'.held, h, s.deepest[c], s'.deepest[c]);
    }
  }

  lemma WithoutStable(pool: Pool, all: Pool, held: set<Hash>, r: Hash)
    requires SoFar(pool, all) && HeldOk(pool, held)
    ensures Without(all, held, r) == Without(pool, held, r)
  {
    forall x | x in held ensures Root(all, held, x) == Root(pool, held, x) { RootStable(pool, all, held, x); }
  }

  lemma EvictsStable(pool: Pool, all: Pool, s: NodeState, r: Hash, s': NodeState)
    requires SoFar(pool, all) && HeldOk(pool, s.held)
    ensures Evicts(all, s, r, s') <==> Evicts(pool, s, r, s')
  {
    WithoutStable(pool, all, s.held, r);
    hide Without;
    if exists x :: x in s.held && x in all && all[x].parent == r {
      var x :| x in s.held && x in all && all[x].parent == r;
      assert x in pool && pool[x].parent == r && r in pool;
    }
  }

  lemma ConfirmedStable(pool: Pool, all: Pool, s: NodeState, t: nat, late: set<Hash>)
    requires SoFar(pool, all) && TipsOk(pool, s.deepest)
    ensures Confirmed(all, s, t, late) == Confirmed(pool, s, t, late)
    ensures Deep(all, s.deepest, t) <==> Deep(pool, s.deepest, t)
  {
    EligibleStable(pool, all, s.deepest, t);
    forall h | h in Eligible(pool, s.deepest, t) ensures IsGenesis(all, h) <==> IsGenesis(pool, h) {
      EligibleInPool(pool, s.deepest, t, h);
    }
  }

  lemma CommitsStable(pool: Pool, all: Pool, s: NodeState, t: nat, late: set<Hash>, s': NodeState)
    requires SoFar(pool, all) && TipsOk(pool, s.deepest)
    ensures Commits(all, s, t, late, s') <==> Commits(pool, s, t, late, s')
  {
    hide Confirmed, Deep;
    ConfirmedStable(pool, all, s, t, late);
  }

  /** A node whose headers were all mined so far makes the same steps in both pools. */
  lemma StepStable(pool: Pool, all: Pool, s: NodeState, e: Event, t: nat, s': NodeState)
    requires SoFar(pool, all) && NodeOk(pool, s)
    requires e.Mine? || e.Deliver? ==> e.h in pool
    ensures NodeStep(all, s, e, t, s') <==> NodeStep(pool, s, e, t, s')
  {
    match e
    case Mine(_, h, c) =>
    case Deliver(_, h) => ReceivesStable(pool, all, s, h, s');
    case Evict(_, r) => EvictsStable(pool, all, s, r, s');
    case MarkFull(_, h) => AnchoredStable(pool, all, s.held, h);
    case Commit(_, late) => NodeTips(pool, s); CommitsStable(pool, all, s, t, late, s');
  }

  lemma NewHeaderStable(pool: Pool, all: Pool, tips: seq<Hash>, c: nat)
    requires Extends(pool, all) && c < |tips| && forall d :: 0 <= d < |tips| ==> tips[d] in pool
    ensures NewHeader(all, tips, c) == NewHeader(pool, tips, c)
  {
    TrailingIsHighest(pool, tips);
    TrailingStable(pool, all, tips);
  }

  lemma {:induction false} TrailingStable(pool: Pool, all: Pool, tips: seq<Hash>)
    requires Extends(pool, all) && tips != [] && forall d :: 0 <= d < |tips| ==> tips[d] in pool
    ensures Trailing(all, tips) == Trailing(pool, tips)
    decreases |tips|
  {
    if |tips| > 1 {
      var rest := tips[..|tips| - 1];
      assert forall d :: 0 <= d < |rest| ==> rest[d] == tips[d];
      TrailingStable(pool, all, rest);
      TrailingIsHighest(pool, rest);
    }
  }

  // ---------- histories ----------

  /** The genesis blocks and the headers that the first i events mined. */
  ghost function PoolAt(all: Pool, genesis: seq<Hash>, es: seq<Event>, i: nat): Pool
    requires i <= |es|
  {
    if i == 0 then map h | h in all && h in genesis :: all[h]
    else
      var pool, e := PoolAt(all, genesis, es, i - 1), es[i - 1];
      if e.Mine? && e.h in all then pool[e.h := all[e.h]] else pool
  }

  /**
   * One node's view changes as its block store says, in the pool of the whole run.  A mined header is new and as
   * the miner computes it from its view; what arrives has been mined before.
   */
  ghost predicate Moves(all: Pool, mined: Pool, v: seq<NodeState>, e: Event, t: nat, v': seq<NodeState>) {
    && e.n < |v| == |v'| && (forall m :: 0 <= m < |v| && m != e.n ==> v'[m] == v[m])
    && NodeStep(all, v[e.n], e, t, v'[e.n])
    && (e.Mine? ==> e.h !in mined && all[e.h] == NewHeader(all, v[e.n].deepest, e.c))
    && (e.Deliver? ==> e.h in mined)
  }

  /** The views of all nodes from the start on. */
  ghost predicate History(all: Pool, genesis: seq<Hash>, views: seq<seq<NodeState>>, es: seq<Event>, t: nat) {
    && |views| == |es| + 1 && StartsFrom(all, genesis)
    && (forall n :: 0 <= n < |views[0]| ==> views[0][n] == NodeState({}, genesis, set h | h in genesis, {}))
    && forall i :: 0 <= i < |es| ==> Moves(all, PoolAt(all, genesis, es, i), views[i], es[i], t, views[i + 1])
  }

  ghost function WorldAt(all: Pool, genesis: seq<Hash>, views: seq<seq<NodeState>>, es: seq<Event>, i: nat): World
    requires |views| == |es| + 1 && i <= |es|
  {
    World(PoolAt(all, genesis, es, i), views[i])
  }

  ghost function Worlds(all: Pool, genesis: seq<Hash>, views: seq<seq<NodeState>>, es: seq<Event>): (ws: seq<World>)
    requires |views| == |es| + 1
    ensures |ws| == |views| && forall i :: 0 <= i < |ws| ==> ws[i] == WorldAt(all, genesis, views, es, i)
  {
    seq(|views|, i requires 0 <= i < |views| => WorldAt(all, genesis, views, es, i))
  }

  lemma MinedHeader(all: Pool, w: World, n: nat, c: nat)
    requires WorldOk(w) && SoFar(w.pool, all) && n < |w.nodes| && c < |w.nodes[n].deepest|
    ensures NewHeader(all, w.nodes[n].deepest, c) == NewHeader(w.pool, w.nodes[n].deepest, c)
  {
    NodeTips(w.pool, w.nodes[n]);
    NewHeaderStable(w.pool, all, w.nodes[n].deepest, c);
  }

  lemma MineIsStep(all: Pool, w: World, e: Event, t: nat, v': seq<NodeState>)
    requires WorldOk(w) && SoFar(w.pool, all) && e.Mine? && Moves(all, w.pool, w.nodes, e, t, v')
    ensures e.h in all && Step(w, e, t, World(w.pool[e.h := all[e.h]], v'))
  {
    hide NewHeader, WorldOk, SoFar;
    MinedHeader(all, w, e.n, e.c);
  }

  /** A move of a node in the pool of the whole run is a step of the protocol. */
  lemma MoveIsStep(all: Pool, w: World, e: Event, t: nat, v': seq<NodeState>)
    requires WorldOk(w) && SoFar(w.pool, all) && Moves(all, w.pool, w.nodes, e, t, v')
    ensures Step(w, e, t, World(if e.Mine? && e.h in all then w.pool[e.h := all[e.h]] else w.pool, v'))
  {
    hide NodeStep, NodeOk, PoolOk, SoFar, NewHeader;
    if e.Mine? {
      MineIsStep(all, w, e, t, v');
    } else {
      StepStable(w.pool, all, w.nodes[e.n], e, t, v'[e.n]);
    }
  }

  lemma FitsToo(pool: Pool, all: Pool)
    requires Extends(pool, all)
    ensures |pool| <= |all|
  {
    assert pool.Keys <= all.Keys;
    SubsetSize(pool.Keys, all.Keys);
    assert |pool| == |pool.Keys| && |all| == |all.Keys|;
  }

  lemma {:induction false} SubsetSize(a: set<Hash>, b: set<Hash>)
    requires a <= b
    ensures |a| <= |b|
    decreases a
  {
    if a != {} {
      var x :| x in a;
      SubsetSize(a - {x}, b - {x});
    }
  }

  lemma StartIsInit(all: Pool, genesis: seq<Hash>, views: seq<seq<NodeState>>, es: seq<Event>, t: nat)
    requires History(all, genesis, views, es, t)
    ensures Init(WorldAt(all, genesis, views, es, 0), genesis) && SoFar(PoolAt(all, genesis, es, 0), all)
  {
    var pool := PoolAt(all, genesis, es, 0);
    forall c | 0 <= c < |genesis| ensures genesis[c] in pool && pool[genesis[c]] == Header(c, genesis[c], 0, 0, 0, []) {
    }
  }

  lemma HistoryMoves(all: Pool, genesis: seq<Hash>, views: seq<seq<NodeState>>, es: seq<Event>, t: nat, i: nat)
    requires History(all, genesis, views, es, t) && i < |es|
    ensures Moves(all, PoolAt(all, genesis, es, i), views[i], es[i], t, views[i + 1])
  {
    hide Moves;
  }

  /** One more step of a history. */
  lemma HistoryNext(all: Pool, genesis: seq<Hash>, views: seq<seq<NodeState>>, es: seq<Event>, t: nat, i: nat)
    requires History(all, genesis, views, es, t) && |all| < U32 && i < |es|
    requires var w := WorldAt(all, genesis, views, es, i); WorldOk(w) && SoFar(w.pool, all)
    ensures var w := WorldAt(all, genesis, views, es, i + 1); WorldOk(w) && SoFar(w.pool, all)
    ensures Step(WorldAt(all, genesis, views, es, i), es[i], t, WorldAt(all, genesis, views, es, i + 1))
  {
    HistoryMoves(all, genesis, views, es, t, i);
    hide History, WorldOk, SoFar, Step, Moves;
    var w, w' := WorldAt(all, genesis, views, es, i), WorldAt(all, genesis, views, es, i + 1);
    MoveIsStep(all, w, es[i], t, w'.nodes);
    MorePool(all, w, es[i], t, w');
  }

  lemma HistoryStart(all: Pool, genesis: seq<Hash>, views: seq<seq<NodeState>>, es: seq<Event>, t: nat)
    requires History(all, genesis, views, es, t)
    ensures var w := WorldAt(all, genesis, views, es, 0); WorldOk(w) && SoFar(w.pool, all)
  {
    assert |views| == |es| + 1;
    hide History, WorldOk, SoFar;
    StartIsInit(all, genesis, views, es, t);
    InitOk(WorldAt(all, genesis, views, es, 0), genesis);
  }

  /** The worlds of a history, up to any time. */
  lemma {:induction false} HistorySteps(all: Pool, genesis: seq<Hash>, views: seq<seq<NodeState>>, es: seq<Event>,
      t: nat, i: nat)
    requires History(all, genesis, views, es, t) && |all| < U32 && i <= |es|
    ensures var w := WorldAt(all, genesis, views, es, i); WorldOk(w) && SoFar(w.pool, all)
    ensures i > 0 ==> Step(WorldAt(all, genesis, views, es, i - 1), es[i - 1], t, WorldAt(all, genesis, views, es, i))
  {
    hide History, WorldOk, SoFar, Step, WorldAt;
    if i == 0 {
      HistoryStart(all, genesis, views, es, t);
    } else {
      HistorySteps(all, genesis, views, es, t, i - 1);
      HistoryNext(all, genesis, views, es, t, i - 1);
    }
  }

  lemma MorePool(all: Pool, w: World, e: Event, t: nat, w': World)
    requires WorldOk(w) && SoFar(w.pool, all) && |all| < U32 && Step(w, e, t, w')
    requires w'.pool == if e.Mine? && e.h in all then w.pool[e.h := all[e.h]] else w.pool
    ensures WorldOk(w') && SoFar(w'.pool, all)
  {
    assert Extends(w'.pool, all);
    FitsToo(w'.pool, all);
    StepKeepsOk(w, e, t, w');
  }

  lemma HistoryFits(all: Pool, genesis: seq<Hash>, views: seq<seq<NodeState>>, es: seq<Event>, t: nat)
    requires History(all, genesis, views, es, t) && |all| < U32
    ensures Init(WorldAt(all, genesis, views, es, 0), genesis) && |PoolAt(all, genesis, es, |es|)| < U32
  {
    hide History;
    StartIsInit(all, genesis, views, es, t);
    HistorySteps(all, genesis, views, es, t, |es|);
    FitsToo(PoolAt(all, genesis, es, |es|), all);
  }

  /**
   * Whatever block stores do, one at a time, in any interleaving, is a run of the protocol: so the theorems
   * about runs are theorems about block stores.
   */
  lemma HistoryIsRun(all: Pool, genesis: seq<Hash>, views: seq<seq<NodeState>>, es: seq<Event>, t: nat)
    requires History(all, genesis, views, es, t) && |all| < U32
    ensures |views| == |es| + 1 && IsRun(Worlds(all, genesis, views, es), es, genesis, t)
  {
    hide Moves, StartsFrom, WorldOk, SoFar, Step, Init, PoolAt;
    HistoryFits(all, genesis, views, es, t);
    WorldsStep(all, genesis, views, es, t);
  }

  lemma WorldsStep(all: Pool, genesis: seq<Hash>, views: seq<seq<NodeState>>, es: seq<Event>, t: nat)
    requires History(all, genesis, views, es, t) && |all| < U32 && |views| == |es| + 1
    ensures var ws := Worlds(all, genesis, views, es); forall i :: 0 <= i < |es| ==> Step(ws[i], es[i], t, ws[i + 1])
  {
    hide History, WorldOk, SoFar, Step, PoolAt;
    var ws := Worlds(all, genesis, views, es);
    forall i | 0 <= i < |es| ensures Step(ws[i], es[i], t, ws[i + 1]) {
      HistorySteps(all, genesis, views, es, t, i + 1);
    }
  }

  // ---------- agreement of block stores ----------

  /** A view of a history is a proper view of the pools of its time and of all times, with the same confirmed blocks. */
  lemma ViewInWhole(all: Pool, genesis: seq<Hash>, views: seq<seq<NodeState>>, es: seq<Event>, t: nat, i: nat, n: nat)
    requires History(all, genesis, views, es, t) && |all| < U32 && i < |views| && n < |views[i]|
    ensures var pool := PoolAt(all, genesis, es, i); var tips := views[i][n].deepest;
      && SoFar(pool, all) && TipsOk(pool, tips) && Linked(pool)
      && Eligible(all, tips, t) == Eligible(pool, tips, t) && (Deep(all, tips, t) <==> Deep(pool, tips, t))
  {
    HistorySteps(all, genesis, views, es, t, i);
    NodeTips(PoolAt(all, genesis, es, i), views[i][n]);
    EligibleStable(PoolAt(all, genesis, es, i), all, views[i][n].deepest, t);
  }

  lemma AgreeingStable(pool: Pool, all: Pool, a: seq<Hash>, b: seq<Hash>, t: nat)
    requires SoFar(pool, all) && TipsOk(pool, a) && TipsOk(pool, b)
    ensures Agreeing(all, a, b, t) <==> Agreeing(pool, a, b, t)
  {
    forall c | 0 <= c < |a| ensures Partial(all, a[c], t) == Partial(pool, a[c], t) { PartialStable(pool, all, a[c], t); }
    forall c | 0 <= c < |b| ensures Partial(all, b[c], t) == Partial(pool, b[c], t) { PartialStable(pool, all, b[c], t); }
  }

  lemma ListsStable(pool: Pool, all: Pool, tips: seq<Hash>, t: nat, s: seq<Hash>)
    requires SoFar(pool, all) && TipsOk(pool, tips) && Lists(all, s, Eligible(pool, tips, t))
    ensures Lists(pool, s, Eligible(pool, tips, t))
  {
    forall k | 0 <= k < |s| ensures s[k] in pool {
      assert s[k] in Eligible(pool, tips, t);
      EligibleInPool(pool, tips, t, s[k]);
    }
    hide Eligible, Linked;
    forall i, j | 0 <= i < j < |s| ensures RankOrder.Before(pool, s[i], s[j]) {
      assert RankOrder.Before(all, s[i], s[j]);
    }
  }

  /** A view in the last pool of the history. */
  lemma ViewAtEnd(all: Pool, genesis: seq<Hash>, views: seq<seq<NodeState>>, es: seq<Event>, t: nat, i: nat, n: nat,
      s: seq<Hash>)
    requires History(all, genesis, views, es, t) && |all| < U32 && i < |views| && n < |views[i]|
    requires Lists(all, s, Eligible(all, views[i][n].deepest, t))
    ensures |views| == |es| + 1
    ensures var pool := PoolAt(all, genesis, es, |es|); var tips := views[i][n].deepest;
      SoFar(pool, all) && TipsOk(pool, tips) && Lists(pool, s, Eligible(PoolAt(all, genesis, es, i), tips, t))
  {
    hide History, Lists, SoFar, Deep, Eligible;
    var pool, tips := PoolAt(all, genesis, es, |es|), views[i][n].deepest;
    HistoryIsRun(all, genesis, views, es, t);
    HistorySteps(all, genesis, views, es, t, |es|);
    ViewInWhole(all, genesis, views, es, t, i, n);
    var ws := Worlds(all, genesis, views, es);
    ViewInFinalPool(ws, es, genesis, t, i, n);
    ListsStable(pool, all, tips, t, s);
  }

  /**
   * Agreement of block stores: at any two of them and any times, in the pool that the stores themselves go by, if
   * the partial chains agree, the listings of the eligible blocks by (next rank, chain) are prefixes of one another.
   */
  lemma StoresAgree(all: Pool, genesis: seq<Hash>, views: seq<seq<NodeState>>, es: seq<Event>, t: nat, i: nat, a: nat,
      j: nat, b: nat, s: seq<Hash>, l: seq<Hash>)
    requires History(all, genesis, views, es, t) && |all| < U32
    requires i < |views| && a < |views[i]| && j < |views| && b < |views[j]|
    requires Deep(all, views[i][a].deepest, t) && Deep(all, views[j][b].deepest, t)
    requires Agreeing(all, views[i][a].deepest, views[j][b].deepest, t)
    requires Lists(all, s, Eligible(all, views[i][a].deepest, t)) && Lists(all, l, Eligible(all, views[j][b].deepest, t))
    ensures Comparable(s, l)
  {
    hide History, Lists, SoFar, Deep, Eligible, Agreeing, TipsOk, Linked;
    HistoryIsRun(all, genesis, views, es, t);
    ViewInWhole(all, genesis, views, es, t, i, a);
    ViewInWhole(all, genesis, views, es, t, j, b);
    ViewAtEnd(all, genesis, views, es, t, i, a, s);
    ViewAtEnd(all, genesis, views, es, t, j, b, l);
    AgreeingStable(PoolAt(all, genesis, es, |es|), all, views[i][a].deepest, views[j][b].deepest, t);
    AgreementOverRuns(Worlds(all, genesis, views, es), es, genesis, t, i, a, j, b, s, l);
  }
}
