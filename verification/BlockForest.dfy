/**
 * The trees a node keeps, as a value: one main tree per chain and any number of orphan trees.
 *
 * Every node is in exactly one search tree, that of its root; and every node is in the child list of its
 * parent, if its header is held.  Both are determined by the held headers alone.
 */
module BlockForest {
  import opened Prelude
  import opened Headers
  import opened Holdings
  import opened SearchTrees

  /**
   * `at` names the node of each hash, `shape` the search tree of each root, `kids` the child list of each node.
   */
  datatype Forest = Forest(nodes: set<Node>, at: map<Hash, Node>, held: set<Hash>, shape: map<Hash, Tree>, kids: map<Node, seq<Node>>)

  /** One node per hash: that of a held header, or of a root whose header is not held. */
  ghost predicate NodesOk(pool: Pool, f: Forest) {
    && HeldOk(pool, f.held)
    && f.at.Keys == f.held + f.shape.Keys && f.held !! f.shape.Keys
    && (forall h :: h in f.at ==> h in pool && f.at[h] in f.nodes && f.at[h].hash == h)
    && (forall n :: n in f.nodes ==> n.hash in f.at && f.at[n.hash] == n)
    && (forall h {:trigger pool[h].parent} :: h in f.held ==> pool[h].parent in f.at)
  }

  /** The nodes whose ancestry leads to the root r. */
  ghost function Members(pool: Pool, f: Forest, r: Hash): set<Node> {
    set n | n in f.nodes && Root(pool, f.held, n.hash) == r
  }

  /** A search tree with its block-tree root at the top, holding exactly the members. */
  ghost predicate ShapeOk(pool: Pool, f: Forest, r: Hash)
    requires r in f.shape
  {
    var t := f.shape[r];
    t.Fork? && t.node.hash == r && Ordered(t) && Nodes(t) == Members(pool, f, r)
  }

  ghost predicate Distinct<T>(s: seq<T>) {
    forall i, j :: 0 <= i < j < |s| ==> s[i] != s[j]
  }

  ghost predicate IsKid(pool: Pool, f: Forest, p: Node, c: Node) {
    c in f.nodes && c.hash in f.held && c.hash in pool && pool[c.hash].parent == p.hash
  }

  /** The child list has every node whose parent is p, once. */
  ghost predicate KidsOk(pool: Pool, f: Forest, p: Node) {
    && p in f.kids && Distinct(f.kids[p])
    && (forall c :: c in f.kids[p] ==> IsKid(pool, f, p, c))
    && (forall c :: c in f.nodes && IsKid(pool, f, p, c) ==> c in f.kids[p])
  }

  ghost predicate ForestOk(pool: Pool, f: Forest) {
    && Linked(pool) && NodesOk(pool, f)
    && (forall r {:trigger ShapeOk(pool, f, r)} :: r in f.shape ==> ShapeOk(pool, f, r))
    && (f.kids.Keys == f.nodes && forall p {:trigger KidsOk(pool, f, p)} :: p in f.nodes ==> KidsOk(pool, f, p))
  }

  /** An orphan tree exists only because a held header waits for its root. */
  ghost predicate Needed(pool: Pool, f: Forest, r: Hash) {
    IsGenesis(pool, r) || exists h :: h in f.held && h in pool && pool[h].parent == r
  }

  ghost predicate AllNeeded(pool: Pool, f: Forest) {
    forall r :: r in f.shape ==> Needed(pool, f, r)
  }

  // ---------- roots ----------

  /** Every node's root is the root of one of the trees. */
  lemma {:induction false} RootInShape(pool: Pool, f: Forest, h: Hash)
    requires Linked(pool) && NodesOk(pool, f) && h in f.at
    ensures Root(pool, f.held, h) in f.shape
    decreases Depth(pool, h)
  {
    if h in f.held {
      RootInShape(pool, f, pool[h].parent);
    }
  }

  /** A node is in exactly one search tree. */
  lemma OneTree(pool: Pool, f: Forest, n: Node, r: Hash)
    requires ForestOk(pool, f) && n in f.nodes && r in f.shape
    ensures n in Nodes(f.shape[r]) <==> Root(pool, f.held, n.hash) == r
  {
    assert ShapeOk(pool, f, r);
  }

  lemma TreesApart(pool: Pool, f: Forest, r: Hash, q: Hash)
    requires ForestOk(pool, f) && r in f.shape && q in f.shape && r != q
    ensures Nodes(f.shape[r]) !! Nodes(f.shape[q]) && Apart(f.shape[r], f.shape[q])
    ensures Nodes(f.shape[r]) <= f.nodes
  {
    assert ShapeOk(pool, f, r) && ShapeOk(pool, f, q);
  }

  // ---------- a new root ----------

  /** A node for a block whose header is not held, in a tree of its own. */
  ghost function NewRoot(f: Forest, n: Node): Forest {
    f.(nodes := f.nodes + {n}, at := f.at[n.hash := n], shape := f.shape[n.hash := Fork(Nil, n, Nil)], kids := f.kids[n := []])
  }

  ghost predicate IsNewcomer(pool: Pool, f: Forest, n: Node) {
    n !in f.nodes && n.hash in pool && n.hash !in f.at
  }

  lemma NewRootNodes(pool: Pool, f: Forest, n: Node)
    requires NodesOk(pool, f) && IsNewcomer(pool, f, n)
    ensures NodesOk(pool, NewRoot(f, n))
  {
  }

  lemma NewRootMembers(pool: Pool, f: Forest, n: Node, r: Hash)
    requires Linked(pool) && NodesOk(pool, f) && IsNewcomer(pool, f, n)
    ensures r != n.hash ==> Members(pool, NewRoot(f, n), r) == Members(pool, f, r)
    ensures r == n.hash ==> Members(pool, NewRoot(f, n), r) == {n}
  {
    forall m | m in f.nodes ensures Root(pool, f.held, m.hash) != n.hash { RootInShape(pool, f, m.hash); }
  }

  lemma NewRootKids(pool: Pool, f: Forest, n: Node, p: Node)
    requires NodesOk(pool, f) && IsNewcomer(pool, f, n)
    requires p == n || (p in f.nodes && KidsOk(pool, f, p))
    ensures KidsOk(pool, NewRoot(f, n), p)
  {
    var g := NewRoot(f, n);
    forall c | c in g.nodes && IsKid(pool, g, p, c) ensures c in g.kids[p] {
      assert c in f.nodes && pool[c.hash].parent in f.at;
    }
  }

  lemma NewRootShape(pool: Pool, f: Forest, n: Node, r: Hash)
    requires Linked(pool) && NodesOk(pool, f) && IsNewcomer(pool, f, n)
    requires r == n.hash || (r in f.shape && ShapeOk(pool, f, r))
    ensures ShapeOk(pool, NewRoot(f, n), r)
  {
    NewRootMembers(pool, f, n, r);
  }

  lemma NewRootOk(pool: Pool, f: Forest, n: Node)
    requires ForestOk(pool, f) && IsNewcomer(pool, f, n)
    ensures ForestOk(pool, NewRoot(f, n))
  {
    hide NodesOk, ShapeOk, KidsOk;
    var g := NewRoot(f, n);
    NewRootNodes(pool, f, n);
    forall r | r in g.shape ensures ShapeOk(pool, g, r) { NewRootShape(pool, f, n, r); }
    forall p | p in g.nodes ensures KidsOk(pool, g, p) { NewRootKids(pool, f, n, p); }
  }

  // ---------- a header joins ----------

  /** The tree rooted at h, with node c, is hung under node p of the tree rooted at r. */
  ghost function Hang(f: Forest, h: Hash, c: Node, r: Hash, p: Node): Forest
    requires h in f.shape && r in f.shape && p in f.kids
  {
    f.(held := f.held + {h},
       shape := (f.shape - {h})[r := PutAll(f.shape[r], f.shape[h])],
       kids := f.kids[p := f.kids[p] + [c]])
  }

  /** The header of h says to hang its tree under p, in the tree rooted at r. */
  ghost predicate CanHang(pool: Pool, f: Forest, h: Hash, c: Node, r: Hash, p: Node) {
    && h in pool && pool[h].depth > 0 && h in f.shape && r in f.shape && r != h && h !in f.held
    && c in f.nodes && c.hash == h && p in f.nodes && p.hash == pool[h].parent
    && r == Root(pool, f.held, pool[h].parent)
  }

  lemma HangReady(pool: Pool, f: Forest, h: Hash)
    requires Linked(pool) && NodesOk(pool, f) && h in f.shape && pool[h].depth > 0 && pool[h].parent in f.at
    ensures CanHang(pool, f, h, f.at[h], Root(pool, f.held, pool[h].parent), f.at[pool[h].parent])
  {
    RootInShape(pool, f, pool[h].parent);
    RootShape(pool, f.held, pool[h].parent);
  }

  lemma HangNodes(pool: Pool, f: Forest, h: Hash, c: Node, r: Hash, p: Node)
    requires NodesOk(pool, f) && CanHang(pool, f, h, c, r, p) && p in f.kids
    ensures NodesOk(pool, Hang(f, h, c, r, p))
  {
    hide Root;
    var g := Hang(f, h, c, r, p);
    assert g.at.Keys == g.held + g.shape.Keys;
  }

  lemma HangMembers(pool: Pool, f: Forest, h: Hash, c: Node, r: Hash, p: Node, q: Hash)
    requires Linked(pool) && NodesOk(pool, f) && CanHang(pool, f, h, c, r, p) && p in f.kids && q != h
    ensures Members(pool, Hang(f, h, c, r, p), q) ==
            if q == r then Members(pool, f, r) + Members(pool, f, h) else Members(pool, f, q)
  {
    hide Root;
    forall n | n in f.nodes
      ensures Root(pool, f.held + {h}, n.hash) == if Root(pool, f.held, n.hash) == h then r else Root(pool, f.held, n.hash)
    {
      RootAfterAdd(pool, f.held, h, n.hash);
    }
  }

  lemma HangShape(pool: Pool, f: Forest, h: Hash, c: Node, r: Hash, p: Node, q: Hash)
    requires Linked(pool) && NodesOk(pool, f) && CanHang(pool, f, h, c, r, p) && p in f.kids
    requires q in f.shape && q != h && ShapeOk(pool, f, q) && ShapeOk(pool, f, h)
    ensures ShapeOk(pool, Hang(f, h, c, r, p), q)
  {
    HangMembers(pool, f, h, c, r, p, q);
    if q == r {
      hide NodesOk, Root, Ordered, Nodes, Apart;
      PutAllNodes(f.shape[q], f.shape[h]);
    }
  }

  lemma HangKids(pool: Pool, f: Forest, h: Hash, c: Node, r: Hash, p: Node, q: Node)
    requires NodesOk(pool, f) && CanHang(pool, f, h, c, r, p) && p in f.kids && q in f.nodes && KidsOk(pool, f, q)
    ensures KidsOk(pool, Hang(f, h, c, r, p), q)
  {
    hide Root;
    var g := Hang(f, h, c, r, p);
    assert c !in f.kids[q] && (forall n :: n in f.nodes && n.hash == h ==> n == c);
    assert q.hash == p.hash ==> q == p;
    hide NodesOk;
    forall n | n in g.kids[q] ensures IsKid(pool, g, q, n) {
      if n != c { assert n in f.kids[q]; }
    }
  }

  /** Hanging a tree keeps every tree and list right, and loses no node. */
  lemma HangOk(pool: Pool, f: Forest, h: Hash, c: Node, r: Hash, p: Node)
    requires ForestOk(pool, f) && CanHang(pool, f, h, c, r, p)
    ensures p in f.kids && ForestOk(pool, Hang(f, h, c, r, p)) && Hang(f, h, c, r, p).nodes == f.nodes
  {
    hide NodesOk, ShapeOk, KidsOk, Root;
    var g := Hang(f, h, c, r, p);
    HangNodes(pool, f, h, c, r, p);
    forall q | q in g.shape ensures ShapeOk(pool, g, q) { HangShape(pool, f, h, c, r, p, q); }
    forall q | q in g.nodes ensures KidsOk(pool, g, q) { HangKids(pool, f, h, c, r, p, q); }
  }

  /** After hanging, the new roots made on the way are needed. */
  lemma HangNeeded(pool: Pool, f: Forest, h: Hash, c: Node, r: Hash, p: Node)
    requires CanHang(pool, f, h, c, r, p) && p in f.kids
    requires forall q :: q in f.shape && q != h && q != pool[h].parent ==> Needed(pool, f, q)
    ensures AllNeeded(pool, Hang(f, h, c, r, p))
  {
    hide Root;
    var g := Hang(f, h, c, r, p);
    forall q | q in g.shape ensures Needed(pool, g, q) {
      if q == pool[h].parent {
        assert h in g.held;
      } else {
        assert Needed(pool, f, q);
      }
    }
  }

  // ---------- an orphan tree is dropped ----------

  ghost function Drop(pool: Pool, f: Forest, r: Hash): Forest {
    var gone := Members(pool, f, r);
    Forest(f.nodes - gone, map h | h in f.at && f.at[h] !in gone :: f.at[h], Without(pool, f.held, r), f.shape - {r}, f.kids - gone)
  }

  lemma DropMembers(pool: Pool, f: Forest, r: Hash, q: Hash)
    requires Linked(pool) && NodesOk(pool, f) && q != r
    ensures Members(pool, Drop(pool, f, r), q) == Members(pool, f, q)
  {
    forall n | n in f.nodes && Root(pool, f.held, n.hash) != r
      ensures Root(pool, Without(pool, f.held, r), n.hash) == Root(pool, f.held, n.hash)
    {
      RootAfterDrop(pool, f.held, r, n.hash);
    }
  }

  lemma HeldRoot(pool: Pool, held: set<Hash>, h: Hash)
    requires Linked(pool) && h in held && h in pool && pool[h].depth > 0
    ensures Root(pool, held, h) == Root(pool, held, pool[h].parent)
  {
  }

  lemma UnheldRoot(pool: Pool, held: set<Hash>, h: Hash)
    requires h !in held
    ensures Root(pool, held, h) == h
  {
  }

  lemma DropKids(pool: Pool, f: Forest, r: Hash, p: Node)
    requires ForestOk(pool, f) && p in Drop(pool, f, r).nodes
    ensures KidsOk(pool, Drop(pool, f, r), p)
  {
    var g := Drop(pool, f, r);
    assert KidsOk(pool, f, p);
    forall c | c in f.kids[p] ensures IsKid(pool, g, p, c) {
      assert IsKid(pool, f, p, c) && Root(pool, f.held, c.hash) == Root(pool, f.held, p.hash);
    }
  }

  lemma DropOk(pool: Pool, f: Forest, r: Hash)
    requires ForestOk(pool, f) && r in f.shape
    ensures ForestOk(pool, Drop(pool, f, r))
  {
    var g := Drop(pool, f, r);
    forall q | q in g.shape ensures ShapeOk(pool, g, q) {
      assert ShapeOk(pool, f, q);
      DropMembers(pool, f, r, q);
    }
    forall p | p in g.nodes ensures KidsOk(pool, g, p) { DropKids(pool, f, r, p); }
  }

  // ---------- the forest is determined by what is held ----------

  ghost function TreeHashes(f: Forest, r: Hash): set<Hash>
    requires r in f.shape
  {
    set n | n in Nodes(f.shape[r]) :: n.hash
  }

  /**
   * The trees are exactly the connected components of what is held: the tree rooted at r has r and the held
   * headers whose ancestry leads to r.
   */
  lemma TreeIsComponent(pool: Pool, f: Forest, r: Hash)
    requires NodesOk(pool, f) && r in f.shape && ShapeOk(pool, f, r)
    ensures TreeHashes(f, r) == {r} + set h | h in f.held && Root(pool, f.held, h) == r
  {
    UnheldRoot(pool, f.held, r);
    forall h | h in f.at ensures h in TreeHashes(f, r) <==> Root(pool, f.held, h) == r {
    }
    forall h | h in f.shape ensures Root(pool, f.held, h) == h { UnheldRoot(pool, f.held, h); }
    hide Root, Nodes, ShapeOk;
    forall h | h in TreeHashes(f, r) ensures h in f.at {
      var n :| n in Nodes(f.shape[r]) && n.hash == h;
    }
  }

  /** The node of hash c is in the child list of the node of hash p. */
  ghost predicate HasKid(f: Forest, p: Hash, c: Hash) {
    p in f.at && c in f.at && f.at[p] in f.kids && f.at[c] in f.kids[f.at[p]]
  }

  /** Delivery order does not matter: the same held headers give the same trees and the same child lists. */
  lemma HeldDetermines(pool: Pool, f: Forest, g: Forest)
    requires ForestOk(pool, f) && ForestOk(pool, g) && AllNeeded(pool, f) && AllNeeded(pool, g)
    requires f.held == g.held && forall h :: IsGenesis(pool, h) ==> h in f.shape && h in g.shape
    ensures f.shape.Keys == g.shape.Keys && forall r :: r in f.shape ==> TreeHashes(f, r) == TreeHashes(g, r)
    ensures forall p, c :: p in f.nodes && c in f.kids[p] ==>
      HasKid(g, p.hash, c.hash)
  {
    hide NodesOk, ShapeOk, KidsOk, TreeHashes, Needed, AllNeeded;
    SameRoots(pool, f, g);
    SameRoots(pool, g, f);
    forall p, c | p in f.nodes && c in f.kids[p]
      ensures HasKid(g, p.hash, c.hash)
    {
      SameKid(pool, f, g, p, c);
    }
    forall r | r in f.shape ensures TreeHashes(f, r) == TreeHashes(g, r) {
      TreeIsComponent(pool, f, r);
      TreeIsComponent(pool, g, r);
    }
  }

  lemma SameRoots(pool: Pool, f: Forest, g: Forest)
    requires ForestOk(pool, f) && ForestOk(pool, g) && AllNeeded(pool, f)
    requires f.held == g.held && forall h :: IsGenesis(pool, h) ==> h in g.shape
    ensures forall r :: r in f.shape ==> r in g.shape
  {
    forall r | r in f.shape ensures r in g.shape {
      assert Needed(pool, f, r) && r !in g.held;
    }
  }

  lemma SameKid(pool: Pool, f: Forest, g: Forest, p: Node, c: Node)
    requires ForestOk(pool, f) && ForestOk(pool, g) && f.held == g.held
    requires p in f.nodes && c in f.kids[p]
    ensures HasKid(g, p.hash, c.hash)
  {
    assert KidsOk(pool, f, p) && IsKid(pool, f, p, c);
    assert pool[c.hash].parent in g.at;
    assert KidsOk(pool, g, g.at[p.hash]);
    assert IsKid(pool, g, g.at[p.hash], g.at[c.hash]);
  }
}
