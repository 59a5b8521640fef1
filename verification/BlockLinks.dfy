/**
 * The pointers of a forest, and the two ways a tree is changed: a subtree is hung under a node of another tree,
 * or a new leaf is added.
 */
module BlockLinks {
  import opened Prelude
  import opened Headers
  import opened Holdings
  import opened SearchTrees
  import opened BlockForest

  /** The child pointer of p and the sibling pointers of the list spell out the list. */
  ghost predicate ListSpells(p: Node, ks: seq<Node>)
    reads p`child, ks`sibling
  {
    if ks == [] then p.child == null
    else
      && p.child == ks[0] && ks[|ks| - 1].sibling == null
      && forall i :: 0 <= i < |ks| - 1 ==> ks[i].sibling == ks[i + 1]
  }

  ghost predicate SearchesSpell(nodes: set<Node>, shape: map<Hash, Tree>)
    reads nodes`left, nodes`right
  {
    forall r :: r in shape ==> Nodes(shape[r]) <= nodes && Spells(shape[r])
  }

  ghost predicate ListIn(nodes: set<Node>, kids: map<Node, seq<Node>>, p: Node)
    requires p in nodes
    reads nodes`child, nodes`sibling
  {
    p in kids && (forall k :: k in kids[p] ==> k in nodes) && ListSpells(p, kids[p])
  }

  ghost predicate ListsSpell(nodes: set<Node>, kids: map<Node, seq<Node>>)
    reads nodes`child, nodes`sibling
  {
    forall p {:trigger ListIn(nodes, kids, p)} :: p in nodes ==> ListIn(nodes, kids, p)
  }

  /** The node of the parent of a held header; roots have none. */
  ghost function ParentOf(pool: Pool, f: Forest, n: Node): Node? {
    if n.hash in f.held && n.hash in pool && pool[n.hash].parent in f.at then f.at[pool[n.hash].parent] else null
  }

  ghost predicate ParentsSpell(pool: Pool, f: Forest)
    reads f.nodes`parent
  {
    forall n {:trigger ParentOf(pool, f, n)} :: n in f.nodes ==> n.parent == ParentOf(pool, f, n)
  }

  ghost predicate RootsAlone(f: Forest)
    reads f.nodes`sibling
  {
    forall n :: n in f.nodes && n.hash !in f.held ==> n.sibling == null
  }

  ghost predicate LinksOk(pool: Pool, f: Forest)
    reads f.nodes`left, f.nodes`right, f.nodes`parent, f.nodes`child, f.nodes`sibling
  {
    SearchesSpell(f.nodes, f.shape) && ListsSpell(f.nodes, f.kids) && ParentsSpell(pool, f) && RootsAlone(f)
  }

  // ---------- child lists ----------

  /** Appends a node at the end of a child list. */
  method AppendChild(p: Node, c: Node, ghost ks: seq<Node>)
    requires ListSpells(p, ks) && c.sibling == null && c !in ks && Distinct(ks)
    modifies p`child, c`parent, ks`sibling
    ensures c.parent == p && ListSpells(p, ks + [c])
  {
    c.parent := p;
    if p.child == null {
      p.child := c;
    } else {
      var z := p.child;
      ghost var i := 0;
      while z.sibling != null
        invariant 0 <= i < |ks| && z == ks[i] && (i < |ks| - 1 ==> z.sibling == ks[i + 1])
        decreases |ks| - i
      {
        z := z.sibling;
        i := i + 1;
      }
      assert forall j :: 0 <= j < i ==> ks[j] != z;
      z.sibling := c;
      assert forall j :: 0 <= j < i ==> ks[j].sibling == ks[j + 1];
    }
  }

  /** No child is in two lists. */
  ghost predicate ListsApart(nodes: set<Node>, kids: map<Node, seq<Node>>, p: Node) {
    p in kids && forall q, k :: q in nodes && q in kids && q != p && k in kids[q] ==> k !in kids[p]
  }

  ghost predicate InNoList(nodes: set<Node>, kids: map<Node, seq<Node>>, c: Node) {
    forall q :: q in nodes && q in kids ==> c !in kids[q]
  }

  /** Appending to one list leaves the others as they are. */
  method AppendInForest(ghost nodes: set<Node>, ghost kids: map<Node, seq<Node>>, p: Node, c: Node)
    requires p in nodes && c in nodes && p in kids && ListsSpell(nodes, kids) && ListsApart(nodes, kids, p)
    requires InNoList(nodes, kids, c)
    requires c.sibling == null && Distinct(kids[p])
    modifies nodes`child, nodes`parent, nodes`sibling
    ensures ListsSpell(nodes, kids[p := kids[p] + [c]]) && c.parent == p
    ensures forall n :: n in nodes && n != c ==> n.parent == old(n.parent)
    ensures forall n :: n in nodes && n !in kids[p] ==> n.sibling == old(n.sibling)
  {
    ghost var ks := kids[p];
    assert ListIn(nodes, kids, p);
    assert forall q :: q in nodes ==> ListIn(nodes, kids, q);
    label before:
    AppendChild(p, c, ks);
    ghost var kids' := kids[p := ks + [c]];
    forall q | q in nodes ensures ListIn(nodes, kids', q) {
      if q != p {
        assert old@before(ListIn(nodes, kids, q));
        forall k | k in kids[q] ensures k.sibling == old@before(k.sibling) {
          assert k !in kids[p];
        }
        assert ListSpells(q, kids[q]);
      }
    }
  }

  lemma KidsElsewhere(pool: Pool, f: Forest, p: Node, q: Node)
    requires p in f.nodes && q in f.nodes && KidsOk(pool, f, p) && KidsOk(pool, f, q) && NodesOk(pool, f) && p != q
    ensures forall k :: k in f.kids[p] ==> k !in f.kids[q]
  {
    assert p.hash != q.hash;
    hide NodesOk;
    forall k | k in f.kids[p] ensures k !in f.kids[q] {
      assert IsKid(pool, f, p, k);
    }
  }

  lemma AppendReady(pool: Pool, f: Forest, h: Hash, c: Node, r: Hash, p: Node)
    requires ForestOk(pool, f) && CanHang(pool, f, h, c, r, p)
    ensures p in f.kids && ListsApart(f.nodes, f.kids, p) && InNoList(f.nodes, f.kids, c) && Distinct(f.kids[p])
    ensures h in f.shape && r in f.shape && c in f.nodes && c.hash == h && h !in f.held && p in f.nodes
    ensures forall k :: k in f.kids[p] ==> k.hash in f.held
  {
    hide NodesOk, Root;
    assert KidsOk(pool, f, p);
    forall q | q in f.nodes ensures c !in f.kids[q] && (q != p ==> forall k :: k in f.kids[q] ==> k !in f.kids[p]) {
      assert KidsOk(pool, f, q);
      if q != p { KidsElsewhere(pool, f, q, p); }
    }
    forall k | k in f.kids[p] ensures k.hash in f.held { assert IsKid(pool, f, p, k); }
  }

  lemma HungParent(pool: Pool, f: Forest, h: Hash, c: Node, r: Hash, p: Node)
    requires NodesOk(pool, f) && CanHang(pool, f, h, c, r, p) && p in f.kids
    ensures ParentOf(pool, Hang(f, h, c, r, p), c) == p
    ensures forall n :: n in f.nodes && n != c ==> ParentOf(pool, Hang(f, h, c, r, p), n) == ParentOf(pool, f, n)
  {
  }

  lemma HangFields(f: Forest, h: Hash, c: Node, r: Hash, p: Node)
    requires h in f.shape && r in f.shape && p in f.kids
    ensures var g := Hang(f, h, c, r, p);
      && g.nodes == f.nodes && g.held == f.held + {h} && g.kids == f.kids[p := f.kids[p] + [c]]
      && g.shape == (f.shape - {h})[r := PutAll(f.shape[r], f.shape[h])] && g.at == f.at
  {
  }

  /** Hanging, as far as the child lists and parent pointers go. */
  method HangLists(ghost pool: Pool, ghost f: Forest, ghost h: Hash, c: Node, ghost r: Hash, p: Node)
    requires ForestOk(pool, f) && CanHang(pool, f, h, c, r, p)
    requires ListsSpell(f.nodes, f.kids) && ParentsSpell(pool, f) && RootsAlone(f)
    modifies f.nodes`child, f.nodes`parent, f.nodes`sibling
    ensures p in f.kids && ListsSpell(f.nodes, Hang(f, h, c, r, p).kids)
    ensures ParentsSpell(pool, Hang(f, h, c, r, p)) && RootsAlone(Hang(f, h, c, r, p))
  {
    hide NodesOk, ShapeOk, KidsOk, CanHang, Linked, Root, Hang, PutAll, ListsSpell, ListsApart, InNoList, Distinct;
    hide ParentOf;
    AppendReady(pool, f, h, c, r, p);
    HungParent(pool, f, h, c, r, p);
    HangFields(f, h, c, r, p);
    AppendInForest(f.nodes, f.kids, p, c);
  }

  // ---------- search trees ----------

  /** No node is in two trees. */
  ghost predicate TreesDisjoint(shape: map<Hash, Tree>, r: Hash) {
    r in shape && forall q :: q in shape && q != r ==> Nodes(shape[q]) !! Nodes(shape[r])
  }

  lemma AllDisjoint(pool: Pool, f: Forest, r: Hash)
    requires ForestOk(pool, f) && r in f.shape
    ensures TreesDisjoint(f.shape, r) && Ordered(f.shape[r]) && Nodes(f.shape[r]) <= f.nodes
  {
    assert ShapeOk(pool, f, r);
    forall q | q in f.shape && q != r ensures Nodes(f.shape[q]) !! Nodes(f.shape[r]) { TreesApart(pool, f, q, r); }
  }

  /** Merging one tree into another leaves the others as they are. */
  method MergeInForest(ghost nodes: set<Node>, ghost shape: map<Hash, Tree>, ghost r: Hash, ghost h: Hash, top: Node,
      sub: Node)
    returns (top': Node?)
    requires r in shape && h in shape && r != h && top == Top(shape[r]) && sub == Top(shape[h])
    requires SearchesSpell(nodes, shape) && TreesDisjoint(shape, r) && TreesDisjoint(shape, h)
    requires Ordered(shape[r]) && Ordered(shape[h])
    modifies nodes`left, nodes`right
    ensures SearchesSpell(nodes, (shape - {h})[r := PutAll(shape[r], shape[h])])
    ensures top' == Top(PutAll(shape[r], shape[h]))
  {
    PutAllWithin(shape[r], shape[h]);
    hide Nodes, Ordered, PutAll, Spells;
    top' := InsertSubtreeByHash(top, sub, shape[r], shape[h], nodes);
    forall q | q in shape && q != r && q != h ensures Spells(shape[q]) {
      assert Nodes(shape[q]) !! Nodes(shape[r]) && Nodes(shape[q]) !! Nodes(shape[h]);
    }
  }

  /** A new node goes into one tree; a node alone is a tree of one node, so this is a merge as well. */
  method AddInForest(ghost nodes: set<Node>, ghost shape: map<Hash, Tree>, ghost r: Hash, top: Node, n: Node)
    returns (top': Node)
    requires r in shape && top == Top(shape[r]) && n in nodes && Fresh(shape[r], n.hash)
    requires SearchesSpell(nodes, shape) && TreesDisjoint(shape, r) && Ordered(shape[r]) && InNoTree(shape, n)
    requires n.left == null && n.right == null
    modifies nodes`left, nodes`right
    ensures SearchesSpell(nodes, shape[r := Put(shape[r], n)]) && top' == Top(Put(shape[r], n))
  {
    PutNodes(shape[r], n);
    PutLowNew(shape[r], n);
    hide Nodes, Ordered, Put, PutLow, Spells;
    top' := InsertBlockOnlyByHash(top, n, shape[r], nodes);
    forall q | q in shape && q != r ensures Spells(shape[q]) {
      assert Nodes(shape[q]) !! Nodes(shape[r]);
    }
  }

  ghost predicate InNoTree(shape: map<Hash, Tree>, n: Node) {
    forall q :: q in shape ==> n !in Nodes(shape[q])
  }

  lemma TopIsNode(pool: Pool, f: Forest, h: Hash, c: Node)
    requires ForestOk(pool, f) && h in f.shape && c in f.nodes && c.hash == h
    ensures Top(f.shape[h]) == c
  {
    assert ShapeOk(pool, f, h);
    assert f.shape[h].node in Nodes(f.shape[h]);
  }

  lemma TopStays(pool: Pool, f: Forest, r: Hash, h: Hash)
    requires ForestOk(pool, f) && r in f.shape && h in f.shape && r != h
    ensures Top(PutAll(f.shape[r], f.shape[h])) == Top(f.shape[r])
  {
    assert ShapeOk(pool, f, r) && ShapeOk(pool, f, h);
    TreesApart(pool, f, r, h);
    PutAllNodes(f.shape[r], f.shape[h]);
  }

  // ---------- whole steps ----------

  /** The tree of c becomes part of another tree: its nodes move to the other search tree, and c joins the children of p. */
  method HangTree(ghost pool: Pool, ghost f: Forest, ghost h: Hash, c: Node, ghost r: Hash, p: Node,
      top: Node) returns (top': Node?)
    requires ForestOk(pool, f) && CanHang(pool, f, h, c, r, p) && r in f.shape && top == Top(f.shape[r])
    requires LinksOk(pool, f)
    modifies f.nodes`left, f.nodes`right, f.nodes`child, f.nodes`parent, f.nodes`sibling
    ensures p in f.kids && LinksOk(pool, Hang(f, h, c, r, p)) && top' == top
  {
    hide ForestOk, CanHang, Linked, Root, PutAll, Hang, SearchesSpell, ListsSpell, ParentsSpell, RootsAlone;
    hide TreesDisjoint, Ordered, Top;
    HangPrepared(pool, f, h, c, r, p);
    HangFields(f, h, c, r, p);
    top' := MergeInForest(f.nodes, f.shape, r, h, top, c);
    HangLists(pool, f, h, c, r, p);
  }

  lemma HangPrepared(pool: Pool, f: Forest, h: Hash, c: Node, r: Hash, p: Node)
    requires ForestOk(pool, f) && CanHang(pool, f, h, c, r, p)
    ensures p in f.kids && h in f.shape && r in f.shape && r != h && Top(f.shape[h]) == c
    ensures TreesDisjoint(f.shape, r) && TreesDisjoint(f.shape, h) && Ordered(f.shape[r]) && Ordered(f.shape[h])
    ensures Top(PutAll(f.shape[r], f.shape[h])) == Top(f.shape[r])
  {
    hide NodesOk, ShapeOk, KidsOk, Linked, Root, PutAll, TreesDisjoint, Ordered, Top;
    AllDisjoint(pool, f, r);
    AllDisjoint(pool, f, h);
    TopIsNode(pool, f, h, c);
    TopStays(pool, f, r, h);
  }

  ghost predicate Loose(n: Node)
    reads n`left, n`right, n`parent, n`child, n`sibling
  {
    n.left == null && n.right == null && n.parent == null && n.child == null && n.sibling == null
  }

  lemma NewRootParents(pool: Pool, f: Forest, n: Node)
    requires NodesOk(pool, f) && IsNewcomer(pool, f, n)
    ensures ParentOf(pool, NewRoot(f, n), n) == null
    ensures forall m :: m in f.nodes ==> ParentOf(pool, NewRoot(f, n), m) == ParentOf(pool, f, m)
  {
  }

  /** A loose node makes a tree of its own. */
  lemma NewRootLinks(pool: Pool, f: Forest, n: Node)
    requires ForestOk(pool, f) && IsNewcomer(pool, f, n) && LinksOk(pool, f) && Loose(n)
    ensures LinksOk(pool, NewRoot(f, n))
  {
    hide NodesOk, ShapeOk, KidsOk, Linked, ListSpells, ParentOf, Spells, Nodes;
    NewRootParents(pool, f, n);
    LooseSpells(n);
    var g := NewRoot(f, n);
    assert g.nodes == f.nodes + {n} && g.held == f.held;
    assert SearchesSpell(g.nodes, g.shape);
    forall p | p in g.nodes ensures ListIn(g.nodes, g.kids, p) {
      if p != n { assert ListIn(f.nodes, f.kids, p); }
    }
  }

  lemma LooseSpells(n: Node)
    requires Loose(n)
    ensures Spells(Fork(Nil, n, Nil)) && Nodes(Fork(Nil, n, Nil)) == {n} && ListSpells(n, [])
  {
  }

  /** A new block goes into the tree of its parent; to the forest this is a new root that is hung at once. */
  ghost function Grow(f: Forest, n: Node, r: Hash, p: Node): Forest
    requires r in f.shape && p in f.kids
  {
    Hang(NewRoot(f, n), n.hash, n, r, p)
  }

  ghost predicate CanGrow(pool: Pool, f: Forest, h: Hash, r: Hash, p: Node) {
    && h in pool && pool[h].depth > 0 && h !in f.at && r in f.shape && p in f.nodes && p.hash == pool[h].parent
    && r == Root(pool, f.held, pool[h].parent)
  }

  lemma GrowReady(pool: Pool, f: Forest, n: Node, r: Hash, p: Node)
    requires ForestOk(pool, f) && CanGrow(pool, f, n.hash, r, p) && n !in f.nodes
    ensures p in f.kids && CanHang(pool, NewRoot(f, n), n.hash, n, r, p) && ForestOk(pool, NewRoot(f, n))
    ensures IsNewcomer(pool, f, n)
  {
    NewRootOk(pool, f, n);
  }

  lemma UndoKey<T>(m: map<Hash, T>, h: Hash, x: T, r: Hash, y: T)
    requires h !in m && r in m
    ensures (m[h := x] - {h})[r := y] == m[r := y]
  {
  }

  lemma GrowShape(pool: Pool, f: Forest, n: Node, r: Hash, p: Node)
    requires ForestOk(pool, f) && CanGrow(pool, f, n.hash, r, p) && n !in f.nodes
    ensures r in f.shape && p in f.kids && Grow(f, n, r, p).shape == f.shape[r := Put(f.shape[r], n)]
    ensures Grow(f, n, r, p).nodes == f.nodes + {n} == NewRoot(f, n).nodes
  {
    var one := Fork(Nil, n, Nil);
    assert n.hash !in f.shape;
    hide *;
    UndoKey(f.shape, n.hash, one, r, Put(f.shape[r], n));
    HangFields(NewRoot(f, n), n.hash, n, r, p);
    NewRootFields(f, n);
  }

  lemma NewRootFields(f: Forest, n: Node)
    ensures var g := NewRoot(f, n);
      && g.nodes == f.nodes + {n} && g.held == f.held && g.shape == f.shape[n.hash := Fork(Nil, n, Nil)]
      && g.kids == f.kids[n := []] && g.at == f.at[n.hash := n]
  {
  }

  lemma GrowPrepared(pool: Pool, f: Forest, n: Node, r: Hash, p: Node)
    requires ForestOk(pool, f) && CanGrow(pool, f, n.hash, r, p) && n !in f.nodes
    ensures r in f.shape && TreesDisjoint(f.shape, r) && Ordered(f.shape[r]) && Fresh(f.shape[r], n.hash)
    ensures InNoTree(f.shape, n) && Top(Put(f.shape[r], n)) == Top(f.shape[r])
  {
    AllDisjoint(pool, f, r);
    PutNodes(f.shape[r], n);
    forall q | q in f.shape ensures n !in Nodes(f.shape[q]) { assert ShapeOk(pool, f, q); }
    assert ShapeOk(pool, f, r);
  }

  /** A loose node, already a tree of its own, becomes a leaf of the tree rooted at r. */
  method HangLoose(ghost pool: Pool, ghost f: Forest, n: Node, ghost r: Hash, p: Node, top: Node) returns (top': Node)
    requires ForestOk(pool, f) && CanGrow(pool, f, n.hash, r, p) && r in f.shape && top == Top(f.shape[r])
    requires n !in f.nodes && Loose(n)
    requires SearchesSpell(f.nodes + {n}, f.shape) && LinksOk(pool, NewRoot(f, n))
    modifies (f.nodes + {n})`left, (f.nodes + {n})`right, (f.nodes + {n})`child, (f.nodes + {n})`parent, (f.nodes + {n})`sibling
    ensures p in f.kids && LinksOk(pool, Grow(f, n, r, p)) && top' == top
  {
    hide ForestOk, CanGrow, CanHang, Linked, Root, PutAll, Put, Hang, NewRoot, Top, Ordered, TreesDisjoint, InNoTree;
    hide Nodes, Spells;
    hide SearchesSpell, ListsSpell, ParentsSpell, RootsAlone, Fresh, IsNewcomer;
    GrowReady(pool, f, n, r, p);
    GrowPrepared(pool, f, n, r, p);
    GrowShape(pool, f, n, r, p);
    top' := AddInForest(f.nodes + {n}, f.shape, r, top, n);
    HangLists(pool, NewRoot(f, n), n.hash, n, r, p);
  }

  lemma MoreNodes(nodes: set<Node>, n: Node, shape: map<Hash, Tree>)
    requires SearchesSpell(nodes, shape)
    ensures SearchesSpell(nodes + {n}, shape)
  {
    hide Nodes, Spells;
  }

  method AddLeaf(ghost pool: Pool, ghost f: Forest, h: Hash, ghost r: Hash, p: Node, top: Node) returns (n: Node,
      top': Node)
    requires ForestOk(pool, f) && CanGrow(pool, f, h, r, p) && r in f.shape && top == Top(f.shape[r])
    requires LinksOk(pool, f)
    modifies f.nodes`left, f.nodes`right, f.nodes`child, f.nodes`parent, f.nodes`sibling
    ensures fresh(n) && n.hash == h && n.header == None && !n.isFull && n.timeCommited == 0
    ensures p in f.kids && LinksOk(pool, Grow(f, n, r, p)) && top' == top
  {
    hide ForestOk, CanGrow, CanHang, Linked, Hang, NewRoot, Top, SearchesSpell, ListsSpell, ParentsSpell, RootsAlone;
    hide IsNewcomer;
    n := new Node(h);
    GrowReady(pool, f, n, r, p);
    NewRootLinks(pool, f, n);
    MoreNodes(f.nodes, n, f.shape);
    top' := HangLoose(pool, f, n, r, p, top);
  }
}
