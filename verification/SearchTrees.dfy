/**
 * Tree nodes and the search trees (`left`/`right`) that find them by hash.
 *
 * The shape of a search tree is described by a value; `Spells` says that the pointers of the nodes in it spell
 * out this shape.
 */
module SearchTrees {
  import opened Prelude
  import opened Headers

  class Node {
    const hash: Hash
    var header: Option<Header>
    var isFull: bool
    var timeMined: nat
    var timePartial: nat
    var timeCommited: nat
    var left: Node?
    var right: Node?
    var parent: Node?
    var child: Node?
    var sibling: Node?

    constructor (h: Hash)
      ensures hash == h && header == None && !isFull && timeMined == timePartial == timeCommited == 0
      ensures left == null && right == null && parent == null && child == null && sibling == null
    {
      hash, header, isFull := h, None, false;
      timeMined, timePartial, timeCommited := 0, 0, 0;
      left, right, parent, child, sibling := null, null, null, null, null;
    }
  }

  datatype Tree = Nil | Fork(left: Tree, node: Node, right: Tree)

  ghost function Nodes(t: Tree): set<Node> {
    match t
    case Nil => {}
    case Fork(l, n, r) => Nodes(l) + {n} + Nodes(r)
  }

  ghost function Size(t: Tree): nat {
    match t
    case Nil => 0
    case Fork(l, _, r) => Size(l) + 1 + Size(r)
  }

  ghost function Top(t: Tree): Node? {
    if t.Nil? then null else t.node
  }

  /** Left of a node are smaller hashes, right of it larger ones. */
  ghost predicate Ordered(t: Tree) {
    match t
    case Nil => true
    case Fork(l, n, r) =>
      && Ordered(l) && Ordered(r)
      && (forall m :: m in Nodes(l) ==> m.hash < n.hash)
      && (forall m :: m in Nodes(r) ==> n.hash < m.hash)
  }

  /** The pointers spell out the shape. */
  ghost predicate Spells(t: Tree)
    reads Nodes(t)`left, Nodes(t)`right
  {
    match t
    case Nil => true
    case Fork(l, n, r) => n.left == Top(l) && n.right == Top(r) && Spells(l) && Spells(r)
  }

  // ---------- shapes ----------

  /** A node put at its place; a node whose hash is there already is dropped. */
  ghost function Put(t: Tree, s: Node): Tree {
    match t
    case Nil => Fork(Nil, s, Nil)
    case Fork(l, n, r) =>
      if n.hash > s.hash then Fork(Put(l, s), n, r)
      else if n.hash < s.hash then Fork(l, n, Put(r, s))
      else t
  }

  /** All nodes of a tree put in turn: the top, then the left part, then the right part. */
  ghost function PutAll(t: Tree, sub: Tree): Tree
    decreases sub
  {
    match sub
    case Nil => t
    case Fork(l, n, r) => PutAll(PutAll(Put(t, n), l), r)
  }

  ghost predicate Fresh(t: Tree, h: Hash) {
    forall m :: m in Nodes(t) ==> m.hash != h
  }

  lemma PutNodes(t: Tree, s: Node)
    ensures Nodes(t) <= Nodes(Put(t, s)) <= Nodes(t) + {s}
    ensures Fresh(t, s.hash) ==> Nodes(Put(t, s)) == Nodes(t) + {s}
    ensures Top(Put(t, s)) == if t.Nil? then s else Top(t)
  {
  }

  lemma {:induction false} PutOrdered(t: Tree, s: Node)
    requires Ordered(t)
    ensures Ordered(Put(t, s))
  {
    match t
    case Nil =>
    case Fork(l, n, r) =>
      PutOrdered(l, s);
      PutOrdered(r, s);
      PutNodes(l, s);
      PutNodes(r, s);
  }

  ghost predicate Apart(t: Tree, sub: Tree) {
    forall m, n :: m in Nodes(t) && n in Nodes(sub) ==> m.hash != n.hash
  }

  /** The parts of an ordered tree have no node in common. */
  lemma OrderedParts(l: Tree, n: Node, r: Tree)
    requires Ordered(Fork(l, n, r))
    ensures Ordered(l) && Ordered(r) && n !in Nodes(l) && n !in Nodes(r) && Nodes(l) !! Nodes(r)
    ensures Fresh(l, n.hash) && Fresh(r, n.hash) && Apart(l, r)
  {
  }

  lemma ApartParts(t: Tree, l: Tree, n: Node, r: Tree)
    requires Apart(t, Fork(l, n, r))
    ensures Apart(t, l) && Apart(t, r) && Fresh(t, n.hash)
  {
  }

  lemma ApartUnion(t: Tree, a: Tree, b: Tree, sub: Tree)
    requires Nodes(t) <= Nodes(a) + Nodes(b) && Apart(a, sub) && Apart(b, sub)
    ensures Apart(t, sub)
  {
  }

  /** The nodes of both trees, none lost when no hash is in both. */
  lemma {:induction false} PutAllNodes(t: Tree, sub: Tree)
    requires Ordered(t) && Ordered(sub) && Apart(t, sub)
    ensures Nodes(PutAll(t, sub)) == Nodes(t) + Nodes(sub) && Ordered(PutAll(t, sub))
    ensures !t.Nil? ==> Top(PutAll(t, sub)) == Top(t)
    decreases sub
  {
    hide Ordered, Apart, Fresh, Put;
    match sub
    case Nil =>
    case Fork(l, n, r) =>
      var t1 := Put(t, n);
      var t2 := PutAll(t1, l);
      PutApart(t, l, n, r);
      PutAllNodes(t1, l);
      ApartUnion(t2, t1, l, r);
      PutAllNodes(t2, r);
  }

  lemma PutApart(t: Tree, l: Tree, n: Node, r: Tree)
    requires Ordered(t) && Ordered(Fork(l, n, r)) && Apart(t, Fork(l, n, r))
    ensures var t1 := Put(t, n);
      && Nodes(t1) == Nodes(t) + {n} && Ordered(t1) && !t1.Nil? && (!t.Nil? ==> Top(t1) == Top(t))
      && Apart(t1, l) && Apart(t1, r) && Apart(l, r) && Ordered(l) && Ordered(r)
  {
    hide Ordered, Apart, Fresh, Put;
    OrderedParts(l, n, r);
    ApartParts(t, l, n, r);
    PutNodes(t, n);
    PutOrdered(t, n);
    ApartUnion(Put(t, n), t, Fork(Nil, n, Nil), l);
    ApartUnion(Put(t, n), t, Fork(Nil, n, Nil), r);
  }

  lemma PutAllWithin(t: Tree, sub: Tree)
    ensures Nodes(PutAll(t, sub)) <= Nodes(t) + Nodes(sub)
    decreases sub
  {
    match sub
    case Nil =>
    case Fork(l, n, r) =>
      PutNodes(t, n);
      PutAllWithin(Put(t, n), l);
      PutAllWithin(PutAll(Put(t, n), l), r);
  }

  // ---------- the operations on pointers ----------

  /** The node a search for the hash comes to. */
  ghost function Lookup(t: Tree, h: Hash): Node? {
    match t
    case Nil => null
    case Fork(l, n, r) => if n.hash > h then Lookup(l, h) else if n.hash < h then Lookup(r, h) else n
  }

  lemma {:induction false} LookupFinds(t: Tree, h: Hash)
    requires Ordered(t)
    ensures Lookup(t, h) == null <==> Fresh(t, h)
    ensures Lookup(t, h) != null ==> Lookup(t, h) in Nodes(t) && Lookup(t, h).hash == h
  {
    match t
    case Nil =>
    case Fork(l, n, r) =>
      LookupFinds(l, h);
      LookupFinds(r, h);
  }

  method FindBlockByHash(b: Node?, h: Hash, ghost t: Tree, ghost all: set<Node>) returns (r: Node?)
    requires b == Top(t) && Spells(t) && Nodes(t) <= all
    ensures r == Lookup(t, h)
    decreases t
  {
    if b == null {
      return null;
    }
    if b.hash > h {
      r := FindBlockByHash(b.left, h, t.left, all);
    } else if b.hash < h {
      r := FindBlockByHash(b.right, h, t.right, all);
    } else {
      r := b;
    }
  }

  method InsertOneNode(r: Node?, s: Node, ghost t: Tree, ghost all: set<Node>) returns (r': Node)
    requires r == Top(t) && Spells(t) && Ordered(t) && Nodes(t) <= all && s !in Nodes(t)
    requires s.left == null && s.right == null
    modifies Nodes(t)`left, Nodes(t)`right
    ensures r' == Top(Put(t, s)) && Spells(Put(t, s))
    decreases t
  {
    if r == null {
      return s;
    }
    r' := r;
    PutNodes(t.left, s);
    PutNodes(t.right, s);
    if r.hash > s.hash {
      if r.left == null {
        r.left := s;
      } else {
        var l := InsertOneNode(r.left, s, t.left, all);
        r.left := l;
      }
    } else if r.hash < s.hash {
      if r.right == null {
        r.right := s;
      } else {
        var x := InsertOneNode(r.right, s, t.right, all);
        r.right := x;
      }
    }
  }

  /** Takes a tree apart from its top and inserts every node into the other tree. */
  method InsertSubtreeByHash(r: Node?, sub: Node?, ghost t: Tree, ghost ts: Tree,
      ghost all: set<Node>) returns (r': Node?)
    requires r == Top(t) && sub == Top(ts) && Spells(t) && Spells(ts) && Ordered(t) && Ordered(ts)
    requires Nodes(t) + Nodes(ts) <= all && Nodes(t) !! Nodes(ts)
    modifies Nodes(t)`left, Nodes(t)`right, Nodes(ts)`left, Nodes(ts)`right
    ensures r' == Top(PutAll(t, ts)) && Spells(PutAll(t, ts))
    decreases Size(ts), 0
  {
    if sub == null {
      return r;
    }
    ghost var l, x := ts.left, ts.right;
    OrderedParts(l, sub, x);
    PutNodes(t, sub);
    PutOrdered(t, sub);
    hide Ordered, Put;
    var top, left, right := InsertTop(r, sub, t, ts, all);
    r' := InsertParts(top, left, right, Put(t, sub), l, x, all);
  }

  /** Cuts the top off a tree and inserts it. */
  method InsertTop(r: Node?, sub: Node, ghost t: Tree, ghost ts: Tree, ghost all: set<Node>) returns (r': Node,
      left: Node?, right: Node?)
    requires r == Top(t) && sub == Top(ts) && Spells(t) && Spells(ts) && Ordered(t)
    requires sub !in Nodes(ts.left) && sub !in Nodes(ts.right)
    requires Nodes(t) + Nodes(ts) <= all && Nodes(t) !! Nodes(ts)
    modifies Nodes(t)`left, Nodes(t)`right, sub`left, sub`right
    ensures r' == Top(Put(t, sub)) && Spells(Put(t, sub))
    ensures left == Top(ts.left) && right == Top(ts.right) && Spells(ts.left) && Spells(ts.right)
  {
    left, right := sub.left, sub.right;
    sub.left, sub.right := null, null;
    assert Spells(ts.left) && Spells(ts.right) && Spells(t);
    hide Put;
    r' := InsertOneNode(r, sub, t, all);
  }

  method InsertParts(r: Node?, left: Node?, right: Node?, ghost t: Tree, ghost l: Tree, ghost x: Tree,
      ghost all: set<Node>)
    returns (r': Node?)
    requires r == Top(t) && left == Top(l) && right == Top(x) && Spells(t) && Spells(l) && Spells(x)
    requires Ordered(t) && Ordered(l) && Ordered(x)
    requires Nodes(t) + Nodes(l) + Nodes(x) <= all && Nodes(t) !! Nodes(l) && Nodes(t) !! Nodes(x)
    requires Nodes(l) !! Nodes(x)
    modifies Nodes(t)`left, Nodes(t)`right, Nodes(l)`left, Nodes(l)`right, Nodes(x)`left, Nodes(x)`right
    ensures r' == Top(PutAll(PutAll(t, l), x)) && Spells(PutAll(PutAll(t, l), x))
    decreases Size(l) + Size(x), 1
  {
    PutAllWithin(t, l);
    PutAllOrdered(t, l);
    r' := InsertSubtreeByHash(r, left, t, l, all);
    r' := InsertSubtreeByHash(r', right, PutAll(t, l), x, all);
  }

  lemma {:induction false} PutAllOrdered(t: Tree, sub: Tree)
    requires Ordered(t)
    ensures Ordered(PutAll(t, sub))
    decreases sub
  {
    match sub
    case Nil =>
    case Fork(l, n, r) =>
      PutOrdered(t, n);
      PutAllOrdered(Put(t, n), l);
      PutAllOrdered(PutAll(Put(t, n), l), r);
  }

  /** A node put at its place, left of a node with the same hash. */
  ghost function PutLow(t: Tree, s: Node): Tree {
    match t
    case Nil => Fork(Nil, s, Nil)
    case Fork(l, n, r) => if n.hash >= s.hash then Fork(PutLow(l, s), n, r) else Fork(l, n, PutLow(r, s))
  }

  /** No node is lost. */
  lemma PutLowNodes(t: Tree, s: Node)
    ensures Nodes(PutLow(t, s)) == Nodes(t) + {s} && Top(PutLow(t, s)) == if t.Nil? then s else Top(t)
  {
  }

  /** The tree stays ordered exactly if the hash is new. */
  lemma {:induction false} PutLowOrdered(t: Tree, s: Node)
    requires Ordered(t)
    ensures Ordered(PutLow(t, s)) <==> Fresh(t, s.hash)
  {
    match t
    case Nil =>
    case Fork(l, n, r) =>
      if n.hash >= s.hash { PutLowOrdered(l, s); } else { PutLowOrdered(r, s); }
      PutLowNodes(l, s);
      PutLowNodes(r, s);
  }

  /** The nodes from left to right. */
  ghost function InOrder(t: Tree): seq<Node> {
    match t
    case Nil => []
    case Fork(l, n, r) => InOrder(l) + [n] + InOrder(r)
  }

  /** The list falls apart into smaller hashes and hashes at least h. */
  ghost predicate Parts(low: seq<Node>, high: seq<Node>, h: Hash) {
    (forall i :: 0 <= i < |low| ==> low[i].hash < h) && forall i :: 0 <= i < |high| ==> high[i].hash >= h
  }

  ghost predicate Rising(l: seq<Node>) {
    forall i, j :: 0 <= i < j < |l| ==> l[i].hash <= l[j].hash
  }

  /** From left to right, the new node comes right before the first one that does not have a smaller hash. */
  lemma {:induction false} PutLowInOrder(t: Tree, s: Node) returns (low: seq<Node>, high: seq<Node>)
    requires Rising(InOrder(t))
    ensures InOrder(t) == low + high && InOrder(PutLow(t, s)) == low + [s] + high && Parts(low, high, s.hash)
  {
    low, high := [], [];
    match t
    case Nil =>
    case Fork(l, n, r) =>
      var a, b := InOrder(l), InOrder(r);
      RisingParts(a, n, b);
      hide Rising;
      if n.hash >= s.hash {
        low, high := PutLowInOrder(l, s);
        PutBefore(low, high, s, a, n, b);
        high := high + [n] + b;
      } else {
        low, high := PutLowInOrder(r, s);
        PutAfter(low, high, s, a, n, b);
        low := a + [n] + low;
      }
  }

  lemma PutBefore(low: seq<Node>, high: seq<Node>, s: Node, a: seq<Node>, n: Node, b: seq<Node>)
    requires a == low + high && Parts(low, high, s.hash) && n.hash >= s.hash && forall i :: 0 <= i < |b| ==> b[i].hash >= n.hash
    ensures Parts(low, high + [n] + b, s.hash) && a + [n] + b == low + (high + [n] + b)
    ensures low + [s] + high + [n] + b == low + [s] + (high + [n] + b)
  {
  }

  lemma PutAfter(low: seq<Node>, high: seq<Node>, s: Node, a: seq<Node>, n: Node, b: seq<Node>)
    requires b == low + high && Parts(low, high, s.hash) && n.hash < s.hash && forall i :: 0 <= i < |a| ==> a[i].hash <= n.hash
    ensures Parts(a + [n] + low, high, s.hash) && a + [n] + b == (a + [n] + low) + high
    ensures a + [n] + (low + [s] + high) == (a + [n] + low) + [s] + high
  {
  }

  lemma RisingParts(a: seq<Node>, n: Node, b: seq<Node>)
    requires Rising(a + [n] + b)
    ensures Rising(a) && Rising(b) && (forall i :: 0 <= i < |a| ==> a[i].hash <= n.hash) && forall i :: 0 <= i < |b| ==> n.hash <= b[i].hash
  {
    var l := a + [n] + b;
    var k := |a|;
    assert l[k] == n;
    forall i, j | 0 <= i < j < |a| ensures a[i].hash <= a[j].hash { assert l[i] == a[i] && l[j] == a[j]; }
    forall i, j | 0 <= i < j < |b| ensures b[i].hash <= b[j].hash { assert l[k + 1 + i] == b[i] && l[k + 1 + j] == b[j]; }
    forall i | 0 <= i < |a| ensures a[i].hash <= n.hash { assert l[i] == a[i]; }
    forall i | 0 <= i < |b| ensures n.hash <= b[i].hash { assert l[k + 1 + i] == b[i]; }
  }

  /** For a new hash, both ways to put a node agree. */
  lemma PutLowNew(t: Tree, s: Node)
    requires Fresh(t, s.hash)
    ensures PutLow(t, s) == Put(t, s)
  {
  }

  /** Puts a new node, without looking whether its hash is in the tree already. */
  method InsertBlockOnlyByHash(r: Node?, n: Node, ghost t: Tree, ghost all: set<Node>) returns (r': Node)
    requires r == Top(t) && Spells(t) && Ordered(t) && Nodes(t) <= all && n !in Nodes(t)
    requires n.left == null && n.right == null
    modifies Nodes(t)`left, Nodes(t)`right
    ensures r' == Top(PutLow(t, n)) && Spells(PutLow(t, n))
    decreases t
  {
    if r == null {
      return n;
    }
    r' := r;
    PutLowNodes(t.left, n);
    PutLowNodes(t.right, n);
    if r.hash >= n.hash {
      var l := InsertBlockOnlyByHash(r.left, n, t.left, all);
      r.left := l;
    } else {
      var x := InsertBlockOnlyByHash(r.right, n, t.right, all);
      r.right := x;
    }
  }
}
