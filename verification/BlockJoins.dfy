/**
 * What stays true of a node's records when a header joins its trees.
 */
module BlockJoins {
  import opened Prelude
  import opened Headers
  import opened Holdings
  import opened SearchTrees
  import opened BlockForest
  import opened BlockLinks
  import opened BlockIndex

  // ---------- trees ----------

  /** Every orphan tree is needed, but for one that is about to be. */
  ghost predicate NeededBut(pool: Pool, f: Forest, x: Hash) {
    forall q :: q in f.shape && q != x ==> Needed(pool, f, q)
  }

  lemma HangJoins(pool: Pool, f: Forest, h: Hash, c: Node, r: Hash, p: Node)
    requires ForestOk(pool, f) && CanHang(pool, f, h, c, r, p) && NeededBut(pool, f, p.hash)
    ensures p in f.kids
    ensures var g := Hang(f, h, c, r, p); ForestOk(pool, g) && AllNeeded(pool, g) && Joined(f, h, g) && g.nodes == f.nodes
    ensures Hang(f, h, c, r, p).at == f.at && Hang(f, h, c, r, p).shape.Keys == f.shape.Keys - {h}
  {
    hide ForestOk, CanHang, Hang, PutAll, Needed;
    CanHangFacts(pool, f, h, c, r, p);
    HangOk(pool, f, h, c, r, p);
    HangFields(f, h, c, r, p);
    forall q | q in f.shape && q != h && q != pool[h].parent ensures Needed(pool, f, q) { }
    HangNeeded(pool, f, h, c, r, p);
  }

  lemma CanHangFacts(pool: Pool, f: Forest, h: Hash, c: Node, r: Hash, p: Node)
    requires ForestOk(pool, f) && CanHang(pool, f, h, c, r, p)
    ensures h in pool && h in f.at && h in f.shape && r in f.shape && r != h && p in f.kids && p.hash == pool[h].parent
    ensures c in f.nodes && f.at[h] == c
  {
  }

  lemma GrowJoins(pool: Pool, f: Forest, n: Node, r: Hash, p: Node)
    requires ForestOk(pool, f) && CanGrow(pool, f, n.hash, r, p) && n !in f.nodes && NeededBut(pool, f, p.hash)
    ensures p in f.kids
    ensures var g := Grow(f, n, r, p);
      ForestOk(pool, g) && AllNeeded(pool, g) && Joined(f, n.hash, g) && g.nodes == f.nodes + {n} && g.at[n.hash] == n
    ensures Grow(f, n, r, p).shape.Keys == f.shape.Keys && n in Grow(f, n, r, p).kids
    ensures p != n && Grow(f, n, r, p).kids[n] == []
  {
    hide ForestOk, CanGrow, CanHang, Hang, PutAll, Put, Needed;
    GrowReady(pool, f, n, r, p);
    GrowShape(pool, f, n, r, p);
    GrowFacts(pool, f, n, r, p);
    var f' := NewRoot(f, n);
    NewRootFields(f, n);
    CanHangFacts(pool, f', n.hash, n, r, p);
    HangOk(pool, f', n.hash, n, r, p);
    HangFields(f', n.hash, n, r, p);
    forall q | q in f'.shape && q != n.hash && q != p.hash ensures Needed(pool, f', q) {
      NeededStays(pool, f, f', q);
    }
    HangNeeded(pool, f', n.hash, n, r, p);
  }

  lemma NeededStays(pool: Pool, f: Forest, g: Forest, q: Hash)
    requires Needed(pool, f, q) && g.held == f.held
    ensures Needed(pool, g, q)
  {
  }

  lemma GrowFacts(pool: Pool, f: Forest, n: Node, r: Hash, p: Node)
    requires ForestOk(pool, f) && CanGrow(pool, f, n.hash, r, p) && n !in f.nodes
    ensures n.hash !in f.at && p in f.nodes && p != n && p in f.kids && r in f.shape && f.kids.Keys == f.nodes
  {
  }

  // ---------- orphan lists ----------

  /** On chain c both forests wait for the same blocks. */
  ghost predicate SameOrphans(pool: Pool, f: Forest, g: Forest, c: nat) {
    f.nodes <= g.nodes && forall r :: r in pool && pool[r].depth > 0 && pool[r].chain == c ==> (r in f.shape <==> r in g.shape)
  }

  lemma OrphansSame(pool: Pool, f: Forest, g: Forest, c: nat, l: seq<Incomplete>)
    requires OrphansListed(pool, f, c, l) && SameOrphans(pool, f, g, c)
    ensures OrphansListed(pool, g, c, l)
  {
    forall i | 0 <= i < |l| ensures OrphanRoot(pool, g, c, l[i].b) { assert OrphanRoot(pool, f, c, l[i].b); }
  }

  lemma ListHashes(pool: Pool, f: Forest, c: nat, l: seq<Incomplete>, i: nat, j: nat)
    requires NodesOk(pool, f) && OrphansListed(pool, f, c, l) && i < |l| && j < |l| && i != j
    ensures l[i].b.hash != l[j].b.hash
  {
    assert OrphanRoot(pool, f, c, l[i].b) && OrphanRoot(pool, f, c, l[j].b);
    hide OrphanRoot;
    assert l[i].b != l[j].b;
  }

  lemma OrphansWithout(pool: Pool, f: Forest, g: Forest, c: nat, l: seq<Incomplete>, i: nat)
    requires NodesOk(pool, f) && OrphansListed(pool, f, c, l) && i < |l| && f.nodes <= g.nodes
    requires g.shape.Keys == f.shape.Keys - {l[i].b.hash}
    ensures OrphansListed(pool, g, c, l[..i] + l[i + 1..])
  {
    hide NodesOk;
    var k := l[..i] + l[i + 1..];
    assert forall j :: 0 <= j < |k| ==> k[j] == l[if j < i then j else j + 1];
    forall j | 0 <= j < |k| ensures OrphanRoot(pool, g, c, k[j].b) {
      var j' := if j < i then j else j + 1;
      assert OrphanRoot(pool, f, c, l[j'].b);
      ListHashes(pool, f, c, l, i, j');
    }
    forall r | r in g.shape && r in pool && pool[r].depth > 0 && pool[r].chain == c ensures Listed(k, r) {
      assert Listed(l, r);
      var j :| 0 <= j < |l| && l[j].b.hash == r;
      assert k[if j < i then j else j - 1].b.hash == r;
    }
  }

  lemma OrphansMore(pool: Pool, f: Forest, g: Forest, c: nat, l: seq<Incomplete>, n: Node)
    requires OrphansListed(pool, f, c, l) && f.nodes <= g.nodes && OrphanRoot(pool, g, c, n) && n !in f.nodes
    requires g.shape.Keys == f.shape.Keys + {n.hash}
    ensures OrphansListed(pool, g, c, l + [Incomplete(n, 0, 0)])
  {
    var k := l + [Incomplete(n, 0, 0)];
    forall j | 0 <= j < |k| ensures OrphanRoot(pool, g, c, k[j].b) {
      if j < |l| { assert OrphanRoot(pool, f, c, l[j].b); }
    }
    forall r | r in g.shape && r in pool && pool[r].depth > 0 && pool[r].chain == c ensures Listed(k, r) {
      if r == n.hash {
        assert k[|l|].b.hash == r;
      } else {
        assert Listed(l, r);
        var j :| 0 <= j < |l| && l[j].b.hash == r;
        assert k[j].b.hash == r;
      }
    }
  }

  lemma OrphansRenamed(pool: Pool, f: Forest, g: Forest, c: nat, l: seq<Incomplete>, i: nat, n: Node)
    requires NodesOk(pool, f) && OrphansListed(pool, f, c, l) && i < |l| && f.nodes <= g.nodes
    requires OrphanRoot(pool, g, c, n) && n !in f.nodes && g.shape.Keys == f.shape.Keys - {l[i].b.hash} + {n.hash}
    ensures OrphansListed(pool, g, c, l[i := Incomplete(n, 0, 0)])
  {
    hide NodesOk;
    var k := l[i := Incomplete(n, 0, 0)];
    forall j | 0 <= j < |k| ensures OrphanRoot(pool, g, c, k[j].b) && (j != i ==> k[j].b in f.nodes) {
      assert OrphanRoot(pool, f, c, l[j].b);
      if j != i { ListHashes(pool, f, c, l, i, j); }
    }
    forall r | r in g.shape && r in pool && pool[r].depth > 0 && pool[r].chain == c ensures Listed(k, r) {
      if r == n.hash {
        assert k[i].b.hash == r;
      } else {
        assert Listed(l, r);
        var j :| 0 <= j < |l| && l[j].b.hash == r;
        assert k[j].b.hash == r;
      }
    }
  }

  // ---------- main trees and ends ----------

  /** A main tree keeps its top when a block joins. */
  lemma MainTopStays(pool: Pool, f: Forest, h: Hash, g: Forest, b: Hash, top: Node)
    requires Joined(f, h, g) && ForestOk(pool, g) && MainTop(f, b, top) && b in g.shape && b in pool
    ensures MainTop(g, b, top)
  {
    TopIsNode(pool, g, b, g.at[b]);
  }

  /** A block that joins an orphan tree moves nothing in the main trees. */
  lemma NothingAnchored(pool: Pool, held: set<Hash>, h: Hash, x: Hash)
    requires Linked(pool) && HeldOk(pool, held) && h in pool && pool[h].depth > 0 && h !in held && x in pool
    requires !Anchored(pool, held + {h}, h)
    ensures Anchored(pool, held + {h}, x) <==> Anchored(pool, held, x)
  {
    if Anchored(pool, held, x) {
      StillAnchored(pool, held, h, x);
    } else if Anchored(pool, held + {h}, x) {
      NewlyAnchored(pool, held, h, x);
    }
  }

  lemma EndsStay(pool: Pool, f: Forest, h: Hash, g: Forest, genesis: seq<Hash>, deepest: seq<Node>)
    requires Linked(pool) && HeldOk(pool, f.held) && h in pool && pool[h].depth > 0 && h !in f.held && Joined(f, h, g)
    requires !Anchored(pool, g.held, h) && EndsOk(pool, f, genesis, deepest)
    ensures EndsOk(pool, g, genesis, deepest)
  {
    forall c | 0 <= c < |deepest| ensures deepest[c] in g.nodes && IsDeepest(pool, g.held, c, deepest[c].hash) {
      var tip := deepest[c].hash;
      assert IsDeepest(pool, f.held, c, tip);
      NothingAnchored(pool, f.held, h, tip);
      forall x | x in pool && pool[x].chain == c && Anchored(pool, g.held, x) ensures pool[x].depth <= pool[tip].depth {
        NothingAnchored(pool, f.held, h, x);
      }
    }
  }

  lemma EndsMove(pool: Pool, f: Forest, h: Hash, g: Forest, genesis: seq<Hash>, deepest: seq<Node>, c: nat, now: Node)
    requires Linked(pool) && HeldOk(pool, f.held) && h in pool && pool[h].depth > 0 && h !in f.held && Joined(f, h, g)
    requires EndsOk(pool, f, genesis, deepest) && c < |deepest| && pool[h].chain == c && now in g.nodes
    requires DeepestMoves(pool, g.held, h, deepest[c].hash, now.hash)
    ensures EndsOk(pool, g, genesis, deepest[c := now])
  {
    var after := deepest[c := now];
    forall d | 0 <= d < |after| ensures after[d] in g.nodes && IsDeepest(pool, g.held, d, after[d].hash) {
      assert IsDeepest(pool, f.held, d, deepest[d].hash);
      if d == c {
        DeepestKept(pool, f.held, h, deepest[c].hash, now.hash);
      } else {
        DeepestElsewhere(pool, f.held, h, d, deepest[d].hash);
      }
    }
  }

  // ---------- labels and commits ----------

  ghost predicate NewNodes(f: Forest, g: Forest)
    reads g.nodes`isFull, g.nodes`header
  {
    forall n :: n in g.nodes && n !in f.nodes ==> !n.isFull && n.header == None
  }

  lemma FullStays(pool: Pool, f: Forest, h: Hash, g: Forest)
    requires Linked(pool) && NodesOk(pool, f) && h in pool && pool[h].depth > 0 && h !in f.held && Joined(f, h, g)
    requires FullAnchored(pool, f.nodes, f.held) && NewNodes(f, g)
    ensures FullAnchored(pool, g.nodes, g.held)
  {
    hide Anchored;
    forall n | n in g.nodes && n.isFull ensures Anchored(pool, g.held, n.hash) {
      assert n in f.nodes && n.hash in f.at;
      StillAnchored(pool, f.held, h, n.hash);
    }
  }

  lemma CommitsStay(pool: Pool, f: Forest, h: Hash, g: Forest, log: seq<Hash>)
    requires NodesOk(pool, g) && Joined(f, h, g) && NewNodes(f, g) && CommitsOk(pool, f, log)
    requires forall x :: IsGenesis(pool, x) ==> x in f.at
    requires NodesOk(pool, f)
    ensures CommitsOk(pool, g, log)
  {
    forall n | n in g.nodes && IsGenesis(pool, n.hash) ensures n.isFull {
      assert n == f.at[n.hash];
    }
  }

  // ---------- a block that a main tree or an orphan tree receives ----------

  lemma MainTopsStay(pool: Pool, f: Forest, h: Hash, g: Forest, genesis: seq<Hash>, chains: seq<Node>)
    requires GenesisOk(pool, genesis) && Joined(f, h, g) && ForestOk(pool, g) && MainTops(f, genesis, chains)
    requires h in pool && pool[h].depth > 0 && f.shape.Keys - {h} <= g.shape.Keys
    ensures MainTops(g, genesis, chains)
  {
    hide ForestOk, MainTop;
    forall c | 0 <= c < |chains| ensures MainTop(g, genesis[c], chains[c]) {
      MainTopIn(f, genesis[c], chains[c]);
      MainTopStays(pool, f, h, g, genesis[c], chains[c]);
    }
  }

  lemma MainTopIn(f: Forest, g: Hash, top: Node)
    requires MainTop(f, g, top)
    ensures g in f.shape && Top(f.shape[g]) == top
  {
  }

  /** The other chains keep their orphan lists when the list of chain c is replaced. */
  lemma OrphansElsewhere(pool: Pool, f: Forest, g: Forest, genesis: seq<Hash>, inchains: seq<seq<Incomplete>>, c: nat,
      l: seq<Incomplete>)
    requires AllOrphansListed(pool, f, genesis, inchains) && c < |inchains| && OrphansListed(pool, g, c, l)
    requires f.nodes <= g.nodes && forall r :: r in pool && pool[r].chain != c ==> (r in f.shape <==> r in g.shape)
    ensures AllOrphansListed(pool, g, genesis, inchains[c := l])
  {
    hide OrphansListed;
    var after := inchains[c := l];
    forall d | 0 <= d < |after| ensures OrphansListed(pool, g, d, after[d]) {
      if d != c {
        assert OrphansListed(pool, f, d, inchains[d]);
        OrphansSame(pool, f, g, d, inchains[d]);
      }
    }
  }

  /** Joining the header of block h, which is the root of an orphan tree, under a node of another tree. */
  lemma OrphanCanHang(pool: Pool, f: Forest, genesis: seq<Hash>, c: nat, l: seq<Incomplete>, i: nat, h: Hash, r: Hash,
      p: Node)
    requires ForestOk(pool, f) && OrphansListed(pool, f, c, l) && i < |l| && l[i].b.hash == h
    requires h in pool && p in f.nodes && p.hash == pool[h].parent && r == Root(pool, f.held, pool[h].parent)
    ensures CanHang(pool, f, h, l[i].b, r, p) && f.at[h] == l[i].b && pool[h].chain == c
  {
    assert OrphanRoot(pool, f, c, l[i].b);
    hide ShapeOk, KidsOk;
    HangReady(pool, f, h);
  }

  lemma RootOfJoined(pool: Pool, f: Forest, h: Hash)
    requires Linked(pool) && h in pool && pool[h].depth > 0 && h !in f.held
    ensures Root(pool, f.held + {h}, h) == Root(pool, f.held, pool[h].parent)
  {
    RootAfterAdd(pool, f.held, h, h);
    RootShape(pool, f.held, pool[h].parent);
  }

  // ---------- records ----------

  ghost predicate HeadersBut(pool: Pool, nodes: set<Node>, held: set<Hash>, h: Hash)
    reads nodes`header
  {
    forall n :: n in nodes && n.hash != h ==> n.header == HeaderOf(pool, held, n.hash)
  }

  /** Only the header of the block that joined is still to be set. */
  lemma HeadersJoin(pool: Pool, f: Forest, h: Hash, g: Forest)
    requires NodesOk(pool, f) && NodesOk(pool, g) && Joined(f, h, g) && NewNodes(f, g)
    requires HeadersSet(pool, f.nodes, f.held)
    requires forall x :: IsGenesis(pool, x) ==> x in f.at
    ensures HeadersBut(pool, g.nodes, g.held, h)
  {
    forall n | n in g.nodes && n.hash != h ensures n.header == HeaderOf(pool, g.held, n.hash) {
      if n !in f.nodes {
        assert n.hash in g.at && n.hash !in f.at;
      }
    }
  }

  /** The blocks a new header connects are exactly the ones to be fetched below it. */
  lemma IndexJoin(pool: Pool, f: Forest, h: Hash, g: Forest, was: map<Hash, (nat, nat)>, now: map<Hash, (nat, nat)>,
      c: nat)
    requires Linked(pool) && NodesOk(pool, f) && NodesOk(pool, g) && Joined(f, h, g)
    requires forall x :: IsGenesis(pool, x) ==> x in f.at
    requires h in pool && pool[h].depth > 0 && h !in f.held && pool[h].chain == c
    requires IndexExact(pool, f, was)
    requires forall x :: x in now <==> x in was || (ToFetch(pool, g, x) && Under(pool, g.held, h, x))
    requires forall x :: x in now ==> now[x] == if x in was then was[x] else (c, 0)
    ensures IndexExact(pool, g, now)
  {
    hide NodesOk, Linked, Anchored, ToFetch, Under, Joined;
    forall x ensures x in now <==> ToFetch(pool, g, x) { IndexJoinAt(pool, f, h, g, x); }
    forall x | x in now ensures x in pool && now[x].0 == pool[x].chain {
      if x !in was { UnderChain(pool, g.held, h, x); }
    }
  }

  lemma UnderChain(pool: Pool, held: set<Hash>, h: Hash, x: Hash)
    requires Linked(pool) && Under(pool, held, h, x) && h in pool
    ensures x in pool && pool[x].chain == pool[h].chain
  {
    PathShape(pool, x);
    var i :| 0 <= i < |Path(pool, x)| && Path(pool, x)[i] == h;
  }

  lemma IndexJoinAt(pool: Pool, f: Forest, h: Hash, g: Forest, x: Hash)
    requires Linked(pool) && NodesOk(pool, f) && NodesOk(pool, g) && Joined(f, h, g)
    requires forall x :: IsGenesis(pool, x) ==> x in f.at
    requires h in pool && pool[h].depth > 0 && h !in f.held
    ensures ToFetch(pool, f, x) ==> ToFetch(pool, g, x)
    ensures ToFetch(pool, g, x) && !ToFetch(pool, f, x) ==> Under(pool, g.held, h, x)
  {
    if ToFetch(pool, f, x) {
      FromStays(pool, f, h, g, x);
    } else if ToFetch(pool, g, x) {
      hide NodesOk;
      NewlyAnchored(pool, f.held, h, x);
    }
  }

  lemma FromStays(pool: Pool, f: Forest, h: Hash, g: Forest, x: Hash)
    requires Linked(pool) && NodesOk(pool, f) && Joined(f, h, g) && h in pool && pool[h].depth > 0 && h !in f.held
    requires ToFetch(pool, f, x)
    ensures ToFetch(pool, g, x)
  {
    hide Linked, Anchored;
    StillAnchored(pool, f.held, h, x);
  }

  /** When no block is connected, the index stays as it is. */
  lemma IndexStays(pool: Pool, f: Forest, h: Hash, g: Forest, nonFull: map<Hash, (nat, nat)>)
    requires Linked(pool) && NodesOk(pool, f) && NodesOk(pool, g) && Joined(f, h, g)
    requires forall x :: IsGenesis(pool, x) ==> x in f.at
    requires h in pool && pool[h].depth > 0 && h !in f.held && !Anchored(pool, g.held, h)
    requires IndexExact(pool, f, nonFull)
    ensures IndexExact(pool, g, nonFull)
  {
    forall x ensures ToFetch(pool, f, x) <==> ToFetch(pool, g, x) {
      IndexJoinAt(pool, f, h, g, x);
      if ToFetch(pool, g, x) && Under(pool, g.held, h, x) {
        AncestorAnchored(pool, g.held, h, x);
      }
    }
  }

  lemma AncestorAnchored(pool: Pool, held: set<Hash>, h: Hash, x: Hash)
    requires Linked(pool) && HeldOk(pool, held) && Under(pool, held, h, x) && h in pool
    ensures Anchored(pool, held, h)
  {
    AnchoredIffAncestryHeld(pool, held, x);
    AnchoredIffAncestryHeld(pool, held, h);
    forall y | y in Path(pool, h) ensures y in Path(pool, x) { InPathTransitive(pool, y, h, x); }
  }

  /** The deepest block found below the new one moves the end of the chain if it is deeper. */
  lemma MovesRight(pool: Pool, held: set<Hash>, h: Hash, was: Hash, mx: Hash)
    requires Under(pool, held, h, mx) && NoneDeeper(pool, held, h, Depth(pool, mx))
    ensures DeepestMoves(pool, held, h, was, if Depth(pool, mx) > Depth(pool, was) then mx else was)
  {
    hide Under;
  }

  /** A block that connects nothing moves no end. */
  lemma NoMove(pool: Pool, held: set<Hash>, h: Hash, was: Hash)
    requires Linked(pool) && HeldOk(pool, held) && h in pool && !Anchored(pool, held, h)
    ensures DeepestMoves(pool, held, h, was, was)
  {
    forall x | Under(pool, held, h, x) ensures false { AncestorAnchored(pool, held, h, x); }
  }
}
