/**
 * Many nodes mining, receiving and confirming blocks.
 *
 * A world is the pool of all headers mined so far and the state of each node.  Headers reach nodes in any
 * order, any number of times or never; orphan trees may be evicted.
 */
module Protocol {
  import opened Prelude
  import opened Headers
  import opened Holdings
  import opened RankOrder
  import opened Progress

  /** `deepest` has the last block of the longest chain, chain by chain; `committed` what reached commit_block. */
  datatype NodeState = NodeState(held: set<Hash>, deepest: seq<Hash>, full: set<Hash>, committed: set<Hash>)

  datatype World = World(pool: Pool, nodes: seq<NodeState>)

  // ---------- mining ----------

  /** The chain whose end has the largest next rank; the first one when several do. */
  function Trailing(pool: Pool, tips: seq<Hash>): nat
    requires tips != []
    decreases |tips|
  {
    if |tips| == 1 then 0
    else
      var best := Trailing(pool, tips[..|tips| - 1]);
      if best < |tips| && NextRank(pool, tips[|tips| - 1]) > NextRank(pool, tips[best]) then |tips| - 1 else best
  }

  lemma {:induction false} TrailingIsHighest(pool: Pool, tips: seq<Hash>)
    requires tips != []
    ensures Trailing(pool, tips) < |tips|
    ensures forall c :: 0 <= c < |tips| ==> NextRank(pool, tips[c]) <= NextRank(pool, tips[Trailing(pool, tips)])
    ensures forall c :: 0 <= c < Trailing(pool, tips) ==> NextRank(pool, tips[c]) < NextRank(pool, tips[Trailing(pool, tips)])
    decreases |tips|
  {
    if |tips| > 1 {
      var rest := tips[..|tips| - 1];
      TrailingIsHighest(pool, rest);
      assert forall c :: 0 <= c < |rest| ==> tips[c] == rest[c];
    }
  }

  /** The next rank of a new block, in 32-bit arithmetic. */
  function Lifted(rank: nat, trailing: nat): nat {
    if trailing <= rank then Inc32(rank) else trailing
  }

  /** The header mined on chain `c` in view of `tips`. */
  function NewHeader(pool: Pool, tips: seq<Hash>, c: nat): Header
    requires c < |tips|
  {
    TrailingIsHighest(pool, tips);
    var rank := NextRank(pool, tips[c]);
    Header(c, tips[c], Inc32(Depth(pool, tips[c])), rank, Lifted(rank, NextRank(pool, tips[Trailing(pool, tips)])), tips)
  }

  // ---------- steps ----------

  /** A new header joins the held set of a node. */
  ghost predicate Receives(pool: Pool, s: NodeState, h: Hash, s': NodeState) {
    if h !in pool || pool[h].depth == 0 || h in s.held || pool[h].chain >= |s.deepest| then s' == s
    else
      && s'.held == s.held + {h} && s'.full == s.full && s'.committed == s.committed
      && |s'.deepest| == |s.deepest|
      && (forall c :: 0 <= c < |s.deepest| && c != pool[h].chain ==> s'.deepest[c] == s.deepest[c])
      && DeepestMoves(pool, s'.held, h, s.deepest[pool[h].chain], s'.deepest[pool[h].chain])
  }

  /** The end of a chain is only ever replaced by a strictly deeper block. */
  ghost predicate OnlyDeeper(pool: Pool, was: seq<Hash>, now: seq<Hash>) {
    |now| == |was| && forall c :: 0 <= c < |was| ==> now[c] == was[c] || Depth(pool, was[c]) < Depth(pool, now[c])
  }

  /** Of equally deep blocks the one that was there first stays the end. */
  lemma ReceivedOnlyDeeper(pool: Pool, s: NodeState, h: Hash, s': NodeState)
    requires Receives(pool, s, h, s')
    ensures OnlyDeeper(pool, s.deepest, s'.deepest)
  {
  }

  /** The blocks a commit pass hands to commit_block; `late` are those not yet mined by the local clock. */
  ghost function Confirmed(pool: Pool, s: NodeState, t: nat, late: set<Hash>): set<Hash> {
    set h | h in Eligible(pool, s.deepest, t) && h in s.full && h !in late && !IsGenesis(pool, h)
  }

  datatype Event =
    | Mine(n: nat, h: Hash, c: nat)
    | Deliver(n: nat, h: Hash)
    | Evict(n: nat, root: Hash)
    | MarkFull(n: nat, h: Hash)
    | Commit(n: nat, late: set<Hash>)

  /** The node's own block h joins and becomes the end of chain c. */
  ghost predicate Mines(s: NodeState, h: Hash, c: nat, s': NodeState) {
    c < |s.deepest| && s' == s.(held := s.held + {h}, deepest := s.deepest[c := h], full := s.full + {h})
  }

  /** The orphan tree that waits for block r is given up. */
  ghost predicate Evicts(pool: Pool, s: NodeState, r: Hash, s': NodeState) {
    && r in pool && r !in s.held && pool[r].depth > 0 && (exists x :: x in s.held && x in pool && pool[x].parent == r)
    && s' == s.(held := Without(pool, s.held, r))
  }

  /** The full block of a main-tree block is there. */
  ghost predicate Fills(pool: Pool, s: NodeState, h: Hash, s': NodeState) {
    Anchored(pool, s.held, h) && s' == s.(full := s.full + {h})
  }

  /** A commit pass. */
  ghost predicate Commits(pool: Pool, s: NodeState, t: nat, late: set<Hash>, s': NodeState) {
    s' == if Deep(pool, s.deepest, t) then s.(committed := s.committed + Confirmed(pool, s, t, late)) else s
  }

  /** What an event makes of the node it happens at. */
  ghost predicate NodeStep(pool: Pool, s: NodeState, e: Event, t: nat, s': NodeState) {
    match e
    case Mine(_, h, c) => h in pool && Mines(s, h, c, s')
    case Deliver(_, h) => Receives(pool, s, h, s')
    case Evict(_, root) => Evicts(pool, s, root, s')
    case MarkFull(_, h) => Fills(pool, s, h, s')
    case Commit(_, late) => Commits(pool, s, t, late, s')
  }

  ghost predicate Step(w: World, e: Event, t: nat, w': World) {
    && e.n < |w.nodes| == |w'.nodes|
    && (forall m :: 0 <= m < |w.nodes| && m != e.n ==> w'.nodes[m] == w.nodes[m])
    && w'.pool == (if e.Mine? && e.c < |w.nodes[e.n].deepest| then w.pool[e.h := NewHeader(w.pool, w.nodes[e.n].deepest, e.c)] else w.pool)
    && (e.Mine? ==> e.h !in w.pool)
    && NodeStep(w'.pool, w.nodes[e.n], e, t, w'.nodes[e.n])
  }

  ghost predicate Init(w: World, genesis: seq<Hash>) {
    && (forall c :: 0 <= c < |genesis| ==> genesis[c] in w.pool && w.pool[genesis[c]] == Header(c, genesis[c], 0, 0, 0, []))
    && (forall h :: h in w.pool ==> w.pool[h].chain < |genesis| && h == genesis[w.pool[h].chain])
    && forall n :: 0 <= n < |w.nodes| ==> w.nodes[n] == NodeState({}, genesis, set h | h in genesis, {})
  }

  // ---------- the invariant ----------

  /** Numbers stay as small as the number of blocks, so the 32-bit fields never wrap in a pool of fewer than 2^32 blocks. */
  ghost predicate Small(pool: Pool) {
    forall h :: h in pool ==> pool[h].nextRank < |pool| && pool[h].depth < |pool|
  }

  ghost predicate PoolOk(pool: Pool) {
    Linked(pool) && Small(pool) && AllMined(pool)
    && (forall h :: h in pool && pool[h].depth > 0 ==> pool[pool[h].parent].nextRank == pool[h].rank < pool[h].nextRank)
  }

  ghost predicate NodeOk(pool: Pool, s: NodeState) {
    && HeldOk(pool, s.held)
    && forall c :: 0 <= c < |s.deepest| ==> IsDeepest(pool, s.held, c, s.deepest[c])
  }

  ghost predicate WorldOk(w: World) {
    PoolOk(w.pool) && forall n :: 0 <= n < |w.nodes| ==> NodeOk(w.pool, w.nodes[n])
  }

  lemma NodeTips(pool: Pool, s: NodeState)
    requires NodeOk(pool, s)
    ensures TipsOk(pool, s.deepest)
  {
  }

  /** A mined header is one level up, and above everything in the miner's view. */
  lemma NewHeaderFits(pool: Pool, tips: seq<Hash>, c: nat)
    requires PoolOk(pool) && TipsOk(pool, tips) && c < |tips| && |pool| < U32 - 1
    ensures var x := NewHeader(pool, tips, c);
      && x.chain == c && x.parent == tips[c] && x.tips == tips && x.depth == pool[tips[c]].depth + 1
      && pool[tips[c]].nextRank == x.rank < x.nextRank <= |pool| && x.depth <= |pool|
    ensures forall d :: 0 <= d < |tips| ==> pool[tips[d]].nextRank <= NewHeader(pool, tips, c).nextRank
  {
    TrailingIsHighest(pool, tips);
    assert forall d :: 0 <= d < |tips| ==> NextRank(pool, tips[d]) == pool[tips[d]].nextRank;
  }

  /** A mined header joins the pool without breaking the mining rule of any header. */
  lemma MineKeepsPool(pool: Pool, tips: seq<Hash>, h: Hash, c: nat)
    requires PoolOk(pool) && TipsOk(pool, tips) && c < |tips| && h !in pool && |pool| < U32 - 1
    ensures PoolOk(pool[h := NewHeader(pool, tips, c)])
  {
    hide NewHeader;
    var x := NewHeader(pool, tips, c);
    var later := pool[h := x];
    NewHeaderFits(pool, tips, c);
    assert |later| == |pool| + 1;
    forall g | g in later && later[g].depth > 0 ensures Mined(later, g) {
      if g != h { assert Mined(pool, g); }
    }
  }

  lemma DeepestStable(pool: Pool, later: Pool, h: Hash, held: set<Hash>, c: nat, tip: Hash)
    requires Linked(pool) && HeldOk(pool, held) && IsDeepest(pool, held, c, tip)
    requires h !in pool && h in later && later == pool[h := later[h]] && later[h].depth > 0
    ensures IsDeepest(later, held, c, tip)
  {
    RootStable(pool, later, held, tip);
    forall x | x in later && later[x].chain == c && Anchored(later, held, x) ensures later[x].depth <= later[tip].depth {
      if x != h { RootStable(pool, later, held, x); }
    }
  }

  /** The miner's own new block is the deepest of its chain. */
  lemma MinedIsDeepest(pool: Pool, held: set<Hash>, h: Hash, was: Hash)
    requires Linked(pool) && HeldOk(pool, held) && h in pool && h !in held && pool[h].depth > 0 && pool[h].parent == was
    requires IsDeepest(pool, held, pool[h].chain, was)
    requires forall x :: x in pool && pool[x].depth > 0 ==> pool[x].parent != h
    ensures IsDeepest(pool, held + {h}, pool[h].chain, h)
  {
    RootAfterAdd(pool, held, h, h);
    forall x | x in pool && pool[x].chain == pool[h].chain && Anchored(pool, held + {h}, x) ensures pool[x].depth <= pool[h].depth {
      if !Anchored(pool, held, x) {
        RootAfterAdd(pool, held, h, x);
        OnlyItself(pool, held, h, x);
      }
    }
  }

  /** Nothing waits for a block that has no children. */
  lemma {:induction false} OnlyItself(pool: Pool, held: set<Hash>, h: Hash, x: Hash)
    requires Linked(pool) && h in pool && x in pool && Root(pool, held, x) == h
    requires forall y :: y in pool && pool[y].depth > 0 ==> pool[y].parent != h
    ensures x == h
    decreases Depth(pool, x)
  {
    if x in held && HasParent(pool, x) {
      OnlyItself(pool, held, h, pool[x].parent);
    }
  }

  lemma MineKeepsDeepest(pool: Pool, later: Pool, held: set<Hash>, tips: seq<Hash>, h: Hash, c: nat, d: nat)
    requires Linked(pool) && Linked(later) && HeldOk(pool, held) && d < |tips| && c < |tips| && h !in pool
    requires h in later && later == pool[h := later[h]] && later[h].depth > 0
    requires later[h].chain == c && later[h].parent == tips[c]
    requires IsDeepest(pool, held, d, tips[d])
    ensures IsDeepest(later, held + {h}, d, tips[c := h][d])
  {
    DeepestStable(pool, later, h, held, d, tips[d]);
    if d == c {
      MinedIsDeepest(later, held, h, tips[c]);
    } else {
      DeepestElsewhere(later, held, h, d, tips[d]);
    }
  }

  lemma MineKeepsNode(pool: Pool, s: NodeState, h: Hash, c: nat)
    requires PoolOk(pool) && NodeOk(pool, s) && c < |s.deepest| && h !in pool && |pool| < U32 - 1
    ensures NodeOk(pool[h := NewHeader(pool, s.deepest, c)],
                   s.(held := s.held + {h}, deepest := s.deepest[c := h], full := s.full + {h}))
  {
    var x := NewHeader(pool, s.deepest, c);
    NodeTips(pool, s);
    MineKeepsPool(pool, s.deepest, h, c);
    assert x.depth == pool[s.deepest[c]].depth + 1;
    var tips := s.deepest[c := h];
    forall d | 0 <= d < |tips| ensures IsDeepest(pool[h := x], s.held + {h}, d, tips[d]) {
      MineKeepsDeepest(pool, pool[h := x], s.held, s.deepest, h, c, d);
    }
  }

  lemma OthersKept(pool: Pool, s: NodeState, h: Hash, x: Header)
    requires Linked(pool) && NodeOk(pool, s) && h !in pool && x.depth > 0
    ensures NodeOk(pool[h := x], s)
  {
    forall c | 0 <= c < |s.deepest| ensures IsDeepest(pool[h := x], s.held, c, s.deepest[c]) {
      DeepestStable(pool, pool[h := x], h, s.held, c, s.deepest[c]);
    }
  }

  lemma DeliverKeepsNode(pool: Pool, s: NodeState, h: Hash, s': NodeState)
    requires PoolOk(pool) && NodeOk(pool, s) && Receives(pool, s, h, s')
    ensures NodeOk(pool, s')
  {
    if s' != s {
      forall c | 0 <= c < |s.deepest| ensures IsDeepest(pool, s'.held, c, s'.deepest[c]) {
        if c == pool[h].chain {
          DeepestKept(pool, s.held, h, s.deepest[c], s'.deepest[c]);
        } else {
          DeepestElsewhere(pool, s.held, h, c, s.deepest[c]);
        }
      }
    }
  }

  lemma EvictKeepsNode(pool: Pool, s: NodeState, root: Hash)
    requires PoolOk(pool) && NodeOk(pool, s) && root in pool && pool[root].depth > 0
    ensures NodeOk(pool, s.(held := Without(pool, s.held, root)))
  {
    forall c | 0 <= c < |s.deepest| ensures IsDeepest(pool, Without(pool, s.held, root), c, s.deepest[c]) {
      EvictKeepsDeepest(pool, s.held, root, c, s.deepest[c]);
    }
  }

  lemma EvictKeepsDeepest(pool: Pool, held: set<Hash>, root: Hash, c: nat, tip: Hash)
    requires Linked(pool) && HeldOk(pool, held) && root in pool && pool[root].depth > 0 && IsDeepest(pool, held, c, tip)
    ensures IsDeepest(pool, Without(pool, held, root), c, tip)
  {
    RootAfterDrop(pool, held, root, tip);
    forall x | x in pool && pool[x].chain == c && Anchored(pool, Without(pool, held, root), x)
      ensures pool[x].depth <= pool[tip].depth
    {
      AnchoredIffAncestryHeld(pool, held, x);
      AnchoredIffAncestryHeld(pool, Without(pool, held, root), x);
    }
  }

  /** Every step keeps the invariant. */
  lemma StepKeepsOk(w: World, e: Event, t: nat, w': World)
    requires WorldOk(w) && Step(w, e, t, w') && |w'.pool| < U32
    ensures WorldOk(w')
  {
    var s := w.nodes[e.n];
    if e.Mine? {
      var x := NewHeader(w.pool, s.deepest, e.c);
      assert |w'.pool| == |w.pool| + 1;
      NodeTips(w.pool, s);
      MineKeepsPool(w.pool, s.deepest, e.h, e.c);
      MineKeepsNode(w.pool, s, e.h, e.c);
      forall m | 0 <= m < |w.nodes| && m != e.n ensures NodeOk(w'.pool, w'.nodes[m]) {
        OthersKept(w.pool, w.nodes[m], e.h, x);
      }
    } else {
      if e.Deliver? { DeliverKeepsNode(w.pool, s, e.h, w'.nodes[e.n]); }
      if e.Evict? { EvictKeepsNode(w.pool, s, e.root); }
    }
  }

  lemma InitOk(w: World, genesis: seq<Hash>)
    requires Init(w, genesis)
    ensures WorldOk(w)
  {
    forall h | h in w.pool ensures |w.pool| > 0 {
      assert w.pool != map[];
    }
  }

  // ---------- runs ----------

  ghost predicate IsRun(ws: seq<World>, es: seq<Event>, genesis: seq<Hash>, t: nat) {
    && |ws| == |es| + 1 && Init(ws[0], genesis)
    && (forall i :: 0 <= i < |es| ==> Step(ws[i], es[i], t, ws[i + 1]))
    && |ws[|es|].pool| < U32
  }

  ghost predicate Extends(pool: Pool, later: Pool) {
    forall h :: h in pool ==> h in later && later[h] == pool[h]
  }

  lemma {:induction false} PoolsGrow(ws: seq<World>, es: seq<Event>, genesis: seq<Hash>, t: nat, i: nat, j: nat)
    requires IsRun(ws, es, genesis, t) && i <= j < |ws|
    ensures Extends(ws[i].pool, ws[j].pool) && |ws[i].pool| <= |ws[j].pool|
    decreases j - i
  {
    if i < j {
      PoolsGrow(ws, es, genesis, t, i, j - 1);
    }
  }

  /** Every state of every run satisfies the invariant. */
  lemma {:induction false} RunOk(ws: seq<World>, es: seq<Event>, genesis: seq<Hash>, t: nat, i: nat)
    requires IsRun(ws, es, genesis, t) && i < |ws|
    ensures WorldOk(ws[i]) && |ws[i].pool| < U32
  {
    PoolsGrow(ws, es, genesis, t, i, |es|);
    if i == 0 {
      InitOk(ws[0], genesis);
    } else {
      RunOk(ws, es, genesis, t, i - 1);
      StepKeepsOk(ws[i - 1], es[i - 1], t, ws[i]);
    }
  }
}
