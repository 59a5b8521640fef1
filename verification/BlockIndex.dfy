/**
 * What a node keeps beside its trees: header and fullness labels, the orphan lists, the deepest blocks, the
 * index of blocks still to be fetched and the commit records.  Each is tied to the trees by one predicate.
 */
module BlockIndex {
  import opened Prelude
  import opened Headers
  import opened Holdings
  import opened SearchTrees
  import opened BlockForest
  import opened BlockLinks

  // ---------- lookups ----------

  /** A search in the tree rooted at r finds exactly the blocks of that tree. */
  lemma LookupInTree(pool: Pool, f: Forest, r: Hash, h: Hash)
    requires ForestOk(pool, f) && r in f.shape
    ensures Lookup(f.shape[r], h) == if h in f.at && Root(pool, f.held, h) == r then f.at[h] else null
  {
    assert ShapeOk(pool, f, r);
    LookupFinds(f.shape[r], h);
    hide Root, Ordered, Nodes;
    if h in f.at && Root(pool, f.held, h) == r { assert f.at[h] in Nodes(f.shape[r]); }
  }

  // ---------- labels ----------

  function HeaderOf(pool: Pool, held: set<Hash>, h: Hash): Option<Header> {
    if h in pool && (h in held || pool[h].depth == 0) then Some(pool[h]) else None
  }

  ghost predicate HeadersSet(pool: Pool, nodes: set<Node>, held: set<Hash>)
    reads nodes`header
  {
    forall n :: n in nodes ==> n.header == HeaderOf(pool, held, n.hash)
  }

  /** Only blocks of the main trees are full. */
  ghost predicate FullAnchored(pool: Pool, nodes: set<Node>, held: set<Hash>)
    reads nodes`isFull
  {
    forall n :: n in nodes && n.isFull ==> Anchored(pool, held, n.hash)
  }

  // ---------- walking down ----------

  /** Everything below r is r itself or below one of its children. */
  lemma UnderSplit(pool: Pool, f: Forest, r: Node, x: Hash) returns (k: Node)
    requires ForestOk(pool, f) && r in f.nodes && Under(pool, f.held, r.hash, x) && x != r.hash
    ensures k in f.kids[r] && Under(pool, f.held, k.hash, x)
  {
    var p := Path(pool, x);
    PathShape(pool, x);
    var i :| 0 <= i < |p| && p[i] == r.hash;
    var y := p[i + 1];
    PathParent(pool, y);
    assert Path(pool, pool[y].parent) == p[..i + 2][..i + 1] == p[..i + 1] == Path(pool, r.hash);
    assert pool[y].parent == r.hash;
    AnchoredIffAncestryHeld(pool, f.held, x);
    assert y in p;
    AnchoredIffAncestryHeld(pool, f.held, y);
    assert y in f.held;
    k := f.at[y];
    assert KidsOk(pool, f, r) && IsKid(pool, f, r, k);
  }

  lemma KidFacts(pool: Pool, f: Forest, r: Node, k: Node)
    requires ForestOk(pool, f) && r in f.nodes && r in f.kids && k in f.kids[r]
    ensures Linked(pool) && k in f.nodes && k.hash in f.held && k.hash in pool && pool[k.hash].depth > 0
    ensures pool[k.hash].parent == r.hash && r.hash in pool && pool[k.hash].depth == pool[r.hash].depth + 1
  {
    assert KidsOk(pool, f, r);
    hide KidsOk, ShapeOk, Root;
    assert IsKid(pool, f, r, k);
  }

  lemma UnderKid(pool: Pool, f: Forest, r: Node, k: Node, x: Hash)
    requires ForestOk(pool, f) && r in f.nodes && k in f.kids[r] && Under(pool, f.held, k.hash, x)
    ensures Under(pool, f.held, r.hash, x)
  {
    KidFacts(pool, f, r, k);
    hide ForestOk, Anchored, Path, Linked;
    InPathTransitive(pool, r.hash, k.hash, x);
  }

  lemma InPathTransitive(pool: Pool, a: Hash, b: Hash, x: Hash)
    requires Linked(pool) && x in pool && a in Path(pool, b) && b in Path(pool, x)
    ensures a in Path(pool, x)
  {
    PathShape(pool, x);
    hide Path, Linked;
    var i :| 0 <= i < |Path(pool, x)| && Path(pool, x)[i] == b;
    assert a in Path(pool, x)[..i + 1];
  }

  /** Main-tree blocks have their header. */
  lemma HeaderKnown(pool: Pool, f: Forest, n: Node)
    requires NodesOk(pool, f) && n in f.nodes && Anchored(pool, f.held, n.hash)
    ensures n.hash in pool && HeaderOf(pool, f.held, n.hash) == Some(pool[n.hash])
  {
  }

  lemma NoneDeeperWeaker(pool: Pool, held: set<Hash>, h: Hash, d: nat, e: nat)
    requires NoneDeeper(pool, held, h, d) && d <= e
    ensures NoneDeeper(pool, held, h, e)
  {
  }

  lemma UnderItself(pool: Pool, held: set<Hash>, h: Hash)
    requires h in pool && Anchored(pool, held, h)
    ensures Under(pool, held, h, h)
  {
    assert Path(pool, h)[|Path(pool, h)| - 1] == h;
  }

  /** A child of a main-tree block is a main-tree block, one deeper. */
  lemma KidAnchored(pool: Pool, f: Forest, r: Node, k: Node)
    requires ForestOk(pool, f) && r in f.nodes && Anchored(pool, f.held, r.hash) && k in f.kids[r]
    ensures k in f.nodes && k.hash in pool && r.hash in pool && Anchored(pool, f.held, k.hash)
    ensures pool[k.hash].depth == pool[r.hash].depth + 1 && Root(pool, f.held, k.hash) == Root(pool, f.held, r.hash)
  {
    KidFacts(pool, f, r, k);
    hide ForestOk;
    HeldRoot(pool, f.held, k.hash);
  }

  ghost predicate AllAtMost(pool: Pool, bound: nat) {
    forall h :: h in pool ==> pool[h].depth <= bound
  }

  lemma {:induction false} BoundExists(pool: Pool) returns (bound: nat)
    ensures AllAtMost(pool, bound)
    decreases |pool|
  {
    bound := 0;
    if pool != map[] {
      var h :| h in pool;
      var rest := BoundExists(pool - {h});
      bound := rest + pool[h].depth;
      forall g | g in pool ensures pool[g].depth <= bound {
        if g != h { assert g in pool - {h}; }
      }
    }
  }

  /** No main-tree block below h is deeper than d. */
  ghost predicate NoneDeeper(pool: Pool, held: set<Hash>, h: Hash, d: nat) {
    forall x :: Under(pool, held, h, x) ==> Depth(pool, x) <= d
  }

  lemma NoneDeeperJoins(pool: Pool, f: Forest, r: Node, d: nat)
    requires ForestOk(pool, f) && r in f.nodes && Depth(pool, r.hash) <= d
    requires forall k :: k in f.kids[r] ==> NoneDeeper(pool, f.held, k.hash, d)
    ensures NoneDeeper(pool, f.held, r.hash, d)
  {
    forall x | Under(pool, f.held, r.hash, x) ensures Depth(pool, x) <= d {
      if x != r.hash {
        var k := UnderSplit(pool, f, r, x);
      }
    }
  }

  /** Of r and what is below its first i children, mx is the deepest. */
  ghost predicate DeepestOf(pool: Pool, f: Forest, r: Node, ks: seq<Node>, i: nat, mx: Node)
    requires i <= |ks|
  {
    && mx in f.nodes && Under(pool, f.held, r.hash, mx.hash) && Depth(pool, r.hash) <= Depth(pool, mx.hash)
    && forall j :: 0 <= j < i ==> NoneDeeper(pool, f.held, ks[j].hash, Depth(pool, mx.hash))
  }

  lemma DeepestOfNext(pool: Pool, f: Forest, r: Node, ks: seq<Node>, i: nat, mx: Node, fm: Node)
    requires ForestOk(pool, f) && r in f.nodes && r in f.kids && ks == f.kids[r] && i < |ks|
    requires DeepestOf(pool, f, r, ks, i, mx)
    requires fm in f.nodes && Under(pool, f.held, ks[i].hash, fm.hash)
    requires NoneDeeper(pool, f.held, ks[i].hash, Depth(pool, fm.hash))
    ensures DeepestOf(pool, f, r, ks, i + 1, if Depth(pool, fm.hash) > Depth(pool, mx.hash) then fm else mx)
  {
    hide ForestOk, Under, NoneDeeper, Depth;
    UnderKid(pool, f, r, ks[i], fm.hash);
    var now := if Depth(pool, fm.hash) > Depth(pool, mx.hash) then fm else mx;
    forall j | 0 <= j < i + 1 ensures NoneDeeper(pool, f.held, ks[j].hash, Depth(pool, now.hash)) {
      NoneDeeperWeaker(pool, f.held, ks[j].hash, if j < i then Depth(pool, mx.hash) else Depth(pool, fm.hash), Depth(pool, now.hash));
    }
  }

  ghost predicate NoneAsDeep(pool: Pool, held: set<Hash>, h: Hash, d: nat) {
    forall x :: Under(pool, held, h, x) ==> Depth(pool, x) < d
  }

  /** If the way to x leads through child j of a, all blocks below child i are shallower than x. */
  ghost predicate ShallowerBefore(pool: Pool, f: Forest, a: Node, i: nat, j: nat, x: Hash) {
    a in f.kids && i < j < |f.kids[a]| && f.kids[a][j].hash in Path(pool, x)
    ==> NoneAsDeep(pool, f.held, f.kids[a][i].hash, Depth(pool, x))
  }

  /** On the way from r to x, every earlier sibling leads to shallower blocks only. */
  ghost predicate FirstAsDeep(pool: Pool, f: Forest, r: Node, x: Hash) {
    forall a: Node, i: nat, j: nat :: a in f.nodes && r.hash in Path(pool, a.hash) ==> ShallowerBefore(pool, f, a, i, j, x)
  }

  lemma FirstAtStart(pool: Pool, f: Forest, r: Node)
    requires ForestOk(pool, f) && r in f.nodes
    ensures FirstAsDeep(pool, f, r, r.hash)
  {
    hide NoneAsDeep;
    forall a: Node, i: nat, j: nat | a in f.nodes && r.hash in Path(pool, a.hash) ensures ShallowerBefore(pool, f, a, i, j, r.hash) {
      if a in f.kids && i < j < |f.kids[a]| && f.kids[a][j].hash in Path(pool, r.hash) {
        KidFacts(pool, f, a, f.kids[a][j]);
        InForest(pool, f, a);
        InForest(pool, f, r);
        DepthOnPath(pool, r.hash, a.hash);
        DepthOnPath(pool, f.kids[a][j].hash, r.hash);
      }
    }
  }

  lemma DepthOnPath(pool: Pool, h: Hash, x: Hash)
    requires Linked(pool) && x in pool && h in Path(pool, x)
    ensures h in pool && pool[h].depth <= pool[x].depth && (pool[h].depth == pool[x].depth ==> h == x)
  {
    PathShape(pool, x);
    hide Path, Linked;
    var i :| 0 <= i < |Path(pool, x)| && Path(pool, x)[i] == h;
  }

  /** Two blocks on one path at the same depth are one, and the upper of two is on the path of the lower. */
  lemma OnOnePath(pool: Pool, g: Hash, h: Hash, x: Hash)
    requires Linked(pool) && x in pool && g in Path(pool, x) && h in Path(pool, x)
    ensures g in pool && h in pool && (pool[g].depth == pool[h].depth ==> g == h)
    ensures pool[g].depth <= pool[h].depth ==> g in Path(pool, h)
  {
    PathShape(pool, x);
    hide Path, Linked;
    var i :| 0 <= i < |Path(pool, x)| && Path(pool, x)[i] == g;
    var j :| 0 <= j < |Path(pool, x)| && Path(pool, x)[j] == h;
    if i <= j { assert Path(pool, h)[i] == g; }
  }

  /** A strictly deeper block below child i, after what came before it. */
  lemma FirstFromKid(pool: Pool, f: Forest, r: Node, ks: seq<Node>, i: nat, mx: Node, fm: Node)
    requires ForestOk(pool, f) && r in f.nodes && r in f.kids && ks == f.kids[r] && i < |ks| && DeepestOf(pool, f, r, ks, i, mx)
    requires fm in f.nodes && Under(pool, f.held, ks[i].hash, fm.hash) && Depth(pool, fm.hash) > Depth(pool, mx.hash)
    requires FirstAsDeep(pool, f, ks[i], fm.hash)
    ensures FirstAsDeep(pool, f, r, fm.hash)
  {
    KidFacts(pool, f, r, ks[i]);
    InForest(pool, f, fm);
    hide KidsOk, ShapeOk, Path, ParentOf;
    forall a: Node, m: nat, j: nat | a in f.nodes && r.hash in Path(pool, a.hash) ensures ShallowerBefore(pool, f, a, m, j, fm.hash) {
      if a in f.kids && m < j < |f.kids[a]| && f.kids[a][j].hash in Path(pool, fm.hash) {
        if a == r {
          KidFacts(pool, f, r, ks[j]);
          OnOnePath(pool, ks[i].hash, ks[j].hash, fm.hash);
          KidsDiffer(pool, f, r, i, j);
          assert NoneDeeper(pool, f.held, ks[m].hash, Depth(pool, mx.hash));
        } else {
          WayThrough(pool, f, r, ks[i], a, f.kids[a][j], fm.hash);
          assert ShallowerBefore(pool, f, a, m, j, fm.hash);
        }
      }
    }
  }

  lemma KidsDiffer(pool: Pool, f: Forest, r: Node, i: nat, j: nat)
    requires ForestOk(pool, f) && r in f.nodes && r in f.kids && i < |f.kids[r]| && j < |f.kids[r]|
    ensures f.kids[r][i].hash == f.kids[r][j].hash ==> i == j
  {
    assert KidsOk(pool, f, r);
    hide ShapeOk, Root;
    assert IsKid(pool, f, r, f.kids[r][i]) && IsKid(pool, f, r, f.kids[r][j]);
  }

  /** A way to x from r through a lower node a leads through the same child k of r. */
  lemma WayThrough(pool: Pool, f: Forest, r: Node, k: Node, a: Node, b: Node, x: Hash)
    requires ForestOk(pool, f) && r in f.nodes && r in f.kids && k in f.kids[r] && a in f.nodes && a in f.kids && b in f.kids[a]
    requires x in pool && r != a && r.hash in Path(pool, a.hash) && b.hash in Path(pool, x) && k.hash in Path(pool, x)
    ensures k.hash in Path(pool, a.hash)
  {
    KidFacts(pool, f, r, k);
    KidFacts(pool, f, a, b);
    NodesDiffer(pool, f, r, a);
    hide ForestOk;
    PathParent(pool, b.hash);
    assert Path(pool, b.hash) == Path(pool, a.hash) + [b.hash];
    InPathTransitive(pool, a.hash, b.hash, x);
    DepthOnPath(pool, r.hash, a.hash);
    OnOnePath(pool, k.hash, a.hash, x);
  }

  lemma NodesDiffer(pool: Pool, f: Forest, r: Node, a: Node)
    requires ForestOk(pool, f) && r in f.nodes && a in f.nodes && r != a
    ensures r.hash != a.hash && r.hash in pool && a.hash in pool
  {
  }

  /** The deepest block below r; of several the one that a walk along the child lists meets first. */
  method FindMaxDepth(ghost pool: Pool, ghost f: Forest, r: Node, ghost bound: nat) returns (mx: Node)
    requires ForestOk(pool, f) && ListsSpell(f.nodes, f.kids) && HeadersSet(pool, f.nodes, f.held)
    requires r in f.nodes && Anchored(pool, f.held, r.hash) && AllAtMost(pool, bound)
    ensures mx in f.nodes && Under(pool, f.held, r.hash, mx.hash)
    ensures NoneDeeper(pool, f.held, r.hash, Depth(pool, mx.hash))
    ensures FirstAsDeep(pool, f, r, mx.hash)
    decreases bound - Depth(pool, r.hash)
  {
    hide ForestOk, ListsSpell, HeadersSet, NodesOk, Anchored, Under, NoneDeeper, HeaderOf, Depth, AllAtMost, DeepestOf;
    hide FirstAsDeep;
    FirstAtStart(pool, f, r);
    InForest(pool, f, r);
    ListAt(f.nodes, f.kids, r);
    mx := r;
    var tmp := r.child;
    ghost var ks, i := f.kids[r], 0;
    DeepestOfNone(pool, f, r, ks);
    while tmp != null
      invariant 0 <= i <= |ks| && tmp == if i < |ks| then ks[i] else null
      invariant mx in f.nodes && DeepestOf(pool, f, r, ks, i, mx) && FirstAsDeep(pool, f, r, mx.hash)
      decreases |ks| - i
    {
      KidBounded(pool, f, r, tmp, bound);
      var fm := FindMaxDepth(pool, f, tmp, bound);
      UnderKnown(pool, f, tmp.hash, fm);
      DeepestKnown(pool, f, r, ks, i, mx);
      DeepestOfNext(pool, f, r, ks, i, mx, fm);
      if fm.header.value.depth > mx.header.value.depth {
        FirstFromKid(pool, f, r, ks, i, mx, fm);
        mx := fm;
      }
      tmp := tmp.sibling;
      i := i + 1;
    }
    DeepestOfAll(pool, f, r, ks, mx);
  }

  lemma DeepestOfNone(pool: Pool, f: Forest, r: Node, ks: seq<Node>)
    requires r in f.nodes && r.hash in pool && Anchored(pool, f.held, r.hash)
    ensures DeepestOf(pool, f, r, ks, 0, r)
  {
    UnderItself(pool, f.held, r.hash);
  }

  lemma DeepestOfAll(pool: Pool, f: Forest, r: Node, ks: seq<Node>, mx: Node)
    requires ForestOk(pool, f) && r in f.nodes && r in f.kids && ks == f.kids[r] && DeepestOf(pool, f, r, ks, |ks|, mx)
    ensures Under(pool, f.held, r.hash, mx.hash) && NoneDeeper(pool, f.held, r.hash, Depth(pool, mx.hash))
  {
    hide ForestOk, Under, Depth, NoneDeeper;
    NoneDeeperJoins(pool, f, r, Depth(pool, mx.hash));
  }

  lemma DeepestKnown(pool: Pool, f: Forest, r: Node, ks: seq<Node>, i: nat, mx: Node)
    requires NodesOk(pool, f) && i <= |ks| && DeepestOf(pool, f, r, ks, i, mx) && HeadersSet(pool, f.nodes, f.held)
    ensures mx.header.Some? && mx.header.value.depth == Depth(pool, mx.hash)
  {
    UnderKnown(pool, f, r.hash, mx);
  }

  lemma UnderKnown(pool: Pool, f: Forest, h: Hash, n: Node)
    requires NodesOk(pool, f) && n in f.nodes && Under(pool, f.held, h, n.hash) && HeadersSet(pool, f.nodes, f.held)
    ensures n.header.Some? && n.header.value.depth == Depth(pool, n.hash)
  {
    HeaderKnown(pool, f, n);
  }

  lemma ListAt(nodes: set<Node>, kids: map<Node, seq<Node>>, r: Node)
    requires ListsSpell(nodes, kids) && r in nodes
    ensures r in kids && ListSpells(r, kids[r]) && forall k :: k in kids[r] ==> k in nodes
  {
    assert ListIn(nodes, kids, r);
  }

  lemma InForest(pool: Pool, f: Forest, r: Node)
    requires ForestOk(pool, f) && r in f.nodes
    ensures NodesOk(pool, f) && r in f.kids && r.hash in pool
  {
  }

  lemma KidBounded(pool: Pool, f: Forest, r: Node, k: Node, bound: nat)
    requires ForestOk(pool, f) && r in f.nodes && Anchored(pool, f.held, r.hash) && k in f.kids[r]
    requires AllAtMost(pool, bound)
    ensures k in f.nodes && Anchored(pool, f.held, k.hash) && Depth(pool, r.hash) < Depth(pool, k.hash) <= bound
  {
    KidAnchored(pool, f, r, k);
  }

  // ---------- the chains of a node ----------

  /** One genesis block per chain, and no other block without a parent. */
  ghost predicate GenesisOk(pool: Pool, genesis: seq<Hash>) {
    && (forall c :: 0 <= c < |genesis| ==> genesis[c] in pool && pool[genesis[c]].depth == 0 && pool[genesis[c]].chain == c)
    && (forall h :: h in pool ==> pool[h].chain < |genesis| && (pool[h].depth == 0 ==> h == genesis[pool[h].chain]))
  }

  ghost predicate MainTop(f: Forest, g: Hash, top: Node) {
    g in f.shape && Top(f.shape[g]) == top && g in f.at && f.at[g] == top
  }

  /** The main trees are those of the genesis blocks. */
  ghost predicate MainTops(f: Forest, genesis: seq<Hash>, chains: seq<Node>) {
    |chains| == |genesis| && forall c :: 0 <= c < |chains| ==> MainTop(f, genesis[c], chains[c])
  }

  /** An entry of an orphan list: the missing block its tree waits for, and the requests for it. */
  datatype Incomplete = Incomplete(b: Node, lastAsked: nat, noAsks: nat)

  ghost predicate OrphanRoot(pool: Pool, f: Forest, c: nat, n: Node) {
    n in f.nodes && n.hash in f.shape && n.hash in pool && pool[n.hash].depth > 0 && pool[n.hash].chain == c
  }

  ghost predicate Listed(l: seq<Incomplete>, r: Hash) {
    exists i :: 0 <= i < |l| && l[i].b.hash == r
  }

  /** The orphan list of a chain has every orphan tree of the chain, once. */
  ghost predicate OrphansListed(pool: Pool, f: Forest, c: nat, l: seq<Incomplete>) {
    && (forall i :: 0 <= i < |l| ==> OrphanRoot(pool, f, c, l[i].b))
    && (forall i, j :: 0 <= i < j < |l| ==> l[i].b != l[j].b)
    && (forall r :: r in f.shape && r in pool && pool[r].depth > 0 && pool[r].chain == c ==> Listed(l, r))
  }

  ghost predicate AllOrphansListed(pool: Pool, f: Forest, genesis: seq<Hash>, inchains: seq<seq<Incomplete>>) {
    |inchains| == |genesis| && forall c :: 0 <= c < |inchains| ==> OrphansListed(pool, f, c, inchains[c])
  }

  ghost predicate EndsOk(pool: Pool, f: Forest, genesis: seq<Hash>, deepest: seq<Node>) {
    |deepest| == |genesis| && forall c :: 0 <= c < |deepest| ==> deepest[c] in f.nodes && IsDeepest(pool, f.held, c, deepest[c].hash)
  }

  /** A main-tree block whose full block has not been received. */
  ghost predicate ToFetch(pool: Pool, f: Forest, h: Hash)
    reads f.nodes`isFull
  {
    h in f.at && f.at[h] in f.nodes && Anchored(pool, f.held, h) && !f.at[h].isFull
  }

  /** The fetch index has exactly the main-tree blocks that are not full. */
  ghost predicate IndexExact(pool: Pool, f: Forest, nonFull: map<Hash, (nat, nat)>)
    reads f.nodes`isFull
  {
    && (forall h :: h in nonFull <==> ToFetch(pool, f, h))
    && (forall h :: h in nonFull ==> h in pool && nonFull[h].0 == pool[h].chain)
  }

  ghost predicate IsCommitted(pool: Pool, log: seq<Hash>, n: Node)
    reads n`timeCommited
  {
    if IsGenesis(pool, n.hash) then n.timeCommited != 0 else (n.timeCommited != 0 <==> n.hash in log)
  }

  /** The log of commits has every committed block once; being committed is marked in the block, as long as it is full. */
  ghost predicate CommitsOk(pool: Pool, f: Forest, log: seq<Hash>)
    reads f.nodes`isFull, f.nodes`timeCommited
  {
    && Distinct(log)
    && (forall h :: h in log ==> h in f.at && f.at[h] in f.nodes && f.at[h].isFull && !IsGenesis(pool, h))
    && (forall n :: n in f.nodes && n.isFull ==> IsCommitted(pool, log, n))
    && (forall n :: n in f.nodes && IsGenesis(pool, n.hash) ==> n.isFull)
  }

  // ---------- what the trees of f become when header h joins ----------

  ghost predicate Joined(f: Forest, h: Hash, g: Forest) {
    && g.held == f.held + {h} && f.nodes <= g.nodes && h in g.at
    && forall x :: x in f.at ==> x in g.at && g.at[x] == f.at[x]
  }
}
