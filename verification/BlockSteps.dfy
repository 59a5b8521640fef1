/**
 * The conditions on a node's trees and records between the parts of one operation, and how each part leads from one
 * to the next.
 */
module BlockSteps {
  import opened Prelude
  import opened Headers
  import opened Holdings
  import opened SearchTrees
  import opened BlockForest
  import opened BlockLinks
  import opened BlockIndex
  import opened BlockJoins
  import opened RankOrder
  import opened Protocol

  /** The node of a block, if it is in the tree rooted at r. */
  ghost function NodeIn(pool: Pool, f: Forest, r: Hash, h: Hash): Node? {
    if h in f.at && Root(pool, f.held, h) == r then f.at[h] else null
  }

  ghost predicate TreesOk(pool: Pool, f: Forest, genesis: seq<Hash>, chains: seq<Node>) {
    GenesisOk(pool, genesis) && ForestOk(pool, f) && AllNeeded(pool, f) && MainTops(f, genesis, chains)
  }

  /** As `TreesOk`, but nothing need wait yet for block x. */
  ghost predicate TreesBut(pool: Pool, f: Forest, genesis: seq<Hash>, chains: seq<Node>, x: Hash) {
    GenesisOk(pool, genesis) && ForestOk(pool, f) && NeededBut(pool, f, x) && MainTops(f, genesis, chains)
  }

  /** The blocks at or below h that are to be fetched. */
  ghost function Pending(pool: Pool, f: Forest, h: Hash): set<Hash>
    reads f.nodes`isFull
  {
    set x | x in f.at && f.at[x] in f.nodes && Under(pool, f.held, h, x) && !f.at[x].isFull
  }

  ghost predicate UnderAny(pool: Pool, held: set<Hash>, ks: seq<Node>, x: Hash) {
    exists i :: 0 <= i < |ks| && Under(pool, held, ks[i].hash, x)
  }

  ghost function PendingAll(pool: Pool, f: Forest, ks: seq<Node>): set<Hash>
    reads f.nodes`isFull
  {
    set x | x in f.at && f.at[x] in f.nodes && UnderAny(pool, f.held, ks, x) && !f.at[x].isFull
  }

  lemma PendingSplit(pool: Pool, f: Forest, r: Node)
    requires ForestOk(pool, f) && r in f.nodes && r in f.kids && r.hash in pool && Anchored(pool, f.held, r.hash)
    requires r.hash in f.at && f.at[r.hash] == r
    ensures Pending(pool, f, r.hash) == (if r.isFull then {} else {r.hash}) + PendingAll(pool, f, f.kids[r])
  {
    hide ForestOk, Under, Anchored;
    UnderItself(pool, f.held, r.hash);
    forall x | x in f.at ensures Under(pool, f.held, r.hash, x) <==> x == r.hash || UnderAny(pool, f.held, f.kids[r], x) {
      if Under(pool, f.held, r.hash, x) && x != r.hash {
        var k := UnderSplit(pool, f, r, x);
      }
      if UnderAny(pool, f.held, f.kids[r], x) {
        var i :| 0 <= i < |f.kids[r]| && Under(pool, f.held, f.kids[r][i].hash, x);
        UnderKid(pool, f, r, f.kids[r][i], x);
      }
    }
  }

  lemma PendingNext(pool: Pool, f: Forest, ks: seq<Node>, i: nat)
    requires i < |ks|
    ensures PendingAll(pool, f, ks[..i + 1]) == PendingAll(pool, f, ks[..i]) + Pending(pool, f, ks[i].hash)
  {
    hide Under;
    forall x ensures UnderAny(pool, f.held, ks[..i + 1], x) <==> UnderAny(pool, f.held, ks[..i], x) || Under(pool, f.held, ks[i].hash, x) {
      assert ks[..i + 1] == ks[..i] + [ks[i]];
      if Under(pool, f.held, ks[i].hash, x) { assert ks[..i + 1][i] == ks[i]; }
      if UnderAny(pool, f.held, ks[..i], x) {
        var j :| 0 <= j < i && Under(pool, f.held, ks[..i][j].hash, x);
        assert ks[..i + 1][j] == ks[j];
      }
    }
  }

  /** The blocks to be fetched among b and what is below its first i children. */
  ghost function Collected(pool: Pool, f: Forest, b: Node, ks: seq<Node>, i: nat): set<Hash>
    requires i <= |ks|
    reads b`isFull, f.nodes`isFull
  {
    (if b.isFull then {} else {b.hash}) + PendingAll(pool, f, ks[..i])
  }

  lemma CollectedNone(pool: Pool, f: Forest, b: Node, ks: seq<Node>)
    ensures Collected(pool, f, b, ks, 0) == if b.isFull then {} else {b.hash}
  {
    assert PendingAll(pool, f, ks[..0]) == {};
  }

  lemma CollectedNext(pool: Pool, f: Forest, b: Node, ks: seq<Node>, i: nat)
    requires i < |ks|
    ensures Collected(pool, f, b, ks, i + 1) == Collected(pool, f, b, ks, i) + Pending(pool, f, ks[i].hash)
  {
    hide PendingAll, Pending;
    PendingNext(pool, f, ks, i);
  }

  lemma CollectedAll(pool: Pool, f: Forest, b: Node, ks: seq<Node>)
    requires ForestOk(pool, f) && b in f.nodes && b in f.kids && b.hash in pool && Anchored(pool, f.held, b.hash)
    requires b.hash in f.at && f.at[b.hash] == b && ks == f.kids[b]
    ensures Collected(pool, f, b, ks, |ks|) == Pending(pool, f, b.hash)
  {
    assert ks[..|ks|] == ks;
    hide PendingAll, Pending, ForestOk;
    PendingSplit(pool, f, b);
  }

  /** The fetch index gains exactly the blocks of `more`, as blocks of chain c, and the count of received blocks as many. */
  ghost predicate Indexed(was: map<Hash, (nat, nat)>, total: nat, now: map<Hash, (nat, nat)>, total': nat, c: nat,
      more: set<Hash>) {
    && now.Keys == was.Keys + more
    && (forall h :: h in now ==> now[h] == if h in was then was[h] else (c, 0))
    && total' + |was| == total + |now|
  }

  ghost function Ends(deepest: seq<Node>): seq<Hash> {
    seq(|deepest|, i requires 0 <= i < |deepest| => deepest[i].hash)
  }

  ghost function Logged(log: seq<Hash>): set<Hash> {
    set h | h in log
  }

  ghost function FullBlocks(f: Forest): set<Hash>
    reads f.nodes`isFull
  {
    set h | h in f.at && f.at[h] in f.nodes && f.at[h].isFull
  }

  // ---------- lookups ----------

  lemma FoundIn(pool: Pool, f: Forest, r: Hash, h: Hash)
    requires ForestOk(pool, f) && r in f.shape
    ensures Lookup(f.shape[r], h) == NodeIn(pool, f, r, h)
  {
    LookupInTree(pool, f, r, h);
  }

  lemma NodeInFacts(pool: Pool, f: Forest, r: Hash, h: Hash)
    requires NodesOk(pool, f)
    ensures var p := NodeIn(pool, f, r, h);
      p != null ==> p in f.nodes && p.hash == h && h in f.at && Root(pool, f.held, h) == r
  {
  }

  lemma LinkedTree(pool: Pool, f: Forest, r: Hash)
    requires LinksOk(pool, f) && r in f.shape
    ensures Spells(f.shape[r]) && Nodes(f.shape[r]) <= f.nodes
  {
  }

  // ---------- parts of the invariant ----------

  lemma TreesParts(pool: Pool, f: Forest, genesis: seq<Hash>, chains: seq<Node>)
    requires TreesOk(pool, f, genesis, chains)
    ensures Linked(pool) && HeldOk(pool, f.held) && ForestOk(pool, f) && AllNeeded(pool, f) && NodesOk(pool, f)
    ensures |chains| == |genesis|
  {
  }

  /** Less than `TreesParts`, where the rest would only be in the way. */
  lemma TreesForest(pool: Pool, f: Forest, genesis: seq<Hash>, chains: seq<Node>)
    requires TreesOk(pool, f, genesis, chains)
    ensures ForestOk(pool, f) && |chains| == |genesis|
  {
  }

  lemma PartsBut(pool: Pool, f: Forest, genesis: seq<Hash>, chains: seq<Node>, x: Hash)
    requires TreesBut(pool, f, genesis, chains, x)
    ensures Linked(pool) && ForestOk(pool, f) && NodesOk(pool, f)
  {
  }

  lemma OkBut(pool: Pool, f: Forest, genesis: seq<Hash>, chains: seq<Node>, x: Hash)
    requires TreesOk(pool, f, genesis, chains)
    ensures TreesBut(pool, f, genesis, chains, x)
  {
    hide ForestOk, MainTops, GenesisOk, Needed;
  }

  lemma TreeFacts(pool: Pool, f: Forest, genesis: seq<Hash>, chains: seq<Node>, c: nat)
    requires TreesOk(pool, f, genesis, chains) && c < |genesis|
    ensures |chains| == |genesis| && ForestOk(pool, f) && AllNeeded(pool, f) && NodesOk(pool, f) && Linked(pool)
    ensures genesis[c] in f.shape && chains[c] == Top(f.shape[genesis[c]])
    ensures genesis[c] in pool && pool[genesis[c]].depth == 0 && pool[genesis[c]].chain == c
  {
    assert MainTop(f, genesis[c], chains[c]);
  }

  /** Genesis blocks are always there. */
  lemma GenesisIn(pool: Pool, f: Forest, genesis: seq<Hash>, chains: seq<Node>)
    requires TreesOk(pool, f, genesis, chains)
    ensures forall x :: IsGenesis(pool, x) ==> x in f.at
  {
    forall x | IsGenesis(pool, x) ensures x in f.at {
      assert MainTop(f, genesis[pool[x].chain], chains[pool[x].chain]);
    }
  }

  lemma MainKnown(pool: Pool, f: Forest, genesis: seq<Hash>, chains: seq<Node>, c: nat, h: Hash)
    requires TreesOk(pool, f, genesis, chains) && c < |genesis| && NodeIn(pool, f, genesis[c], h) != null
    ensures var n := NodeIn(pool, f, genesis[c], h); n in f.nodes && n.hash == h && h in f.at && f.at[h] == n
    ensures Anchored(pool, f.held, h) && ForestOk(pool, f) && NodesOk(pool, f)
  {
    TreeFacts(pool, f, genesis, chains, c);
  }

  /** A block that is not in the main tree, although its parent is, is not held. */
  lemma NotHeld(pool: Pool, f: Forest, genesis: seq<Hash>, chains: seq<Node>, c: nat, h: Hash)
    requires TreesOk(pool, f, genesis, chains) && c < |genesis| && h in pool && pool[h].depth > 0
    requires NodeIn(pool, f, genesis[c], h) == null && NodeIn(pool, f, genesis[c], pool[h].parent) != null
    ensures h !in f.held
  {
    TreesParts(pool, f, genesis, chains);
    hide TreesOk, ForestOk, AllNeeded, Root;
    if h in f.held { HeldRoot(pool, f.held, h); }
  }

  // ---------- orphan lists ----------

  lemma OrphanFacts(pool: Pool, f: Forest, genesis: seq<Hash>, inchains: seq<seq<Incomplete>>, c: nat, i: nat)
    requires AllOrphansListed(pool, f, genesis, inchains) && c < |genesis|
    ensures |inchains| == |genesis| && OrphansListed(pool, f, c, inchains[c])
    ensures i < |inchains[c]| ==> OrphanRoot(pool, f, c, inchains[c][i].b)
    ensures i < |inchains[c]| ==> forall j :: 0 <= j < i ==> inchains[c][j].b != inchains[c][i].b
  {
  }

  lemma OrphansAfterTree(pool: Pool, f: Forest, g: Forest, genesis: seq<Hash>, inchains: seq<seq<Incomplete>>, c: nat,
      i: nat)
    requires NodesOk(pool, f) && AllOrphansListed(pool, f, genesis, inchains) && c < |inchains| && i < |inchains[c]|
    requires g.nodes == f.nodes && g.shape.Keys == f.shape.Keys - {inchains[c][i].b.hash}
    ensures AllOrphansListed(pool, g, genesis, inchains[c := inchains[c][..i] + inchains[c][i + 1..]])
  {
    OrphanFacts(pool, f, genesis, inchains, c, i);
    hide NodesOk, OrphansListed, AllOrphansListed;
    OrphansWithout(pool, f, g, c, inchains[c], i);
    OrphansElsewhere(pool, f, g, genesis, inchains, c, inchains[c][..i] + inchains[c][i + 1..]);
  }

  lemma OrphansKept(pool: Pool, f: Forest, g: Forest, genesis: seq<Hash>, inchains: seq<seq<Incomplete>>)
    requires AllOrphansListed(pool, f, genesis, inchains) && f.nodes <= g.nodes && g.shape.Keys == f.shape.Keys
    ensures AllOrphansListed(pool, g, genesis, inchains)
  {
    hide OrphansListed;
    forall c | 0 <= c < |inchains| ensures OrphansListed(pool, g, c, inchains[c]) {
      OrphansSame(pool, f, g, c, inchains[c]);
    }
  }

  /** A block whose parent is in the main tree, that is not in it itself and that nobody waits for, is nowhere. */
  lemma MissingUnlessListed(pool: Pool, f: Forest, genesis: seq<Hash>, chains: seq<Node>,
      inchains: seq<seq<Incomplete>>, c: nat, h: Hash)
    requires TreesOk(pool, f, genesis, chains) && AllOrphansListed(pool, f, genesis, inchains) && c < |genesis|
    requires c < |inchains|
    requires h in pool && pool[h].depth > 0 && pool[h].chain == c
    requires NodeIn(pool, f, genesis[c], h) == null && NodeIn(pool, f, genesis[c], pool[h].parent) != null
    ensures !Listed(inchains[c], h) ==> h !in f.at
  {
    TreesParts(pool, f, genesis, chains);
    assert OrphansListed(pool, f, c, inchains[c]);
    NodeInFacts(pool, f, genesis[c], pool[h].parent);
    hide TreesOk, ForestOk, AllNeeded, Root, Listed;
    if h in f.held { HeldRoot(pool, f.held, h); }
  }

  lemma OrphansAfterNew(pool: Pool, f: Forest, g: Forest, genesis: seq<Hash>, inchains: seq<seq<Incomplete>>, c: nat,
      n: Node)
    requires AllOrphansListed(pool, f, genesis, inchains) && c < |inchains| && f.nodes <= g.nodes && n !in f.nodes
    requires OrphanRoot(pool, g, c, n) && g.shape.Keys == f.shape.Keys + {n.hash}
    ensures AllOrphansListed(pool, g, genesis, inchains[c := inchains[c] + [Incomplete(n, 0, 0)]])
  {
    OrphanChain(pool, g, c, n);
    hide OrphansListed, OrphanRoot;
    OrphansMore(pool, f, g, c, inchains[c], n);
    OrphansElsewhere(pool, f, g, genesis, inchains, c, inchains[c] + [Incomplete(n, 0, 0)]);
  }

  lemma OrphansAfterAbove(pool: Pool, f: Forest, g: Forest, genesis: seq<Hash>, inchains: seq<seq<Incomplete>>, c: nat,
      i: nat, n: Node)
    requires NodesOk(pool, f) && AllOrphansListed(pool, f, genesis, inchains) && c < |inchains| && i < |inchains[c]|
    requires f.nodes <= g.nodes && n !in f.nodes
    requires OrphanRoot(pool, g, c, n) && g.shape.Keys == f.shape.Keys - {inchains[c][i].b.hash} + {n.hash}
    ensures AllOrphansListed(pool, g, genesis, inchains[c := inchains[c][i := Incomplete(n, 0, 0)]])
  {
    OrphanChain(pool, g, c, n);
    OrphanFacts(pool, f, genesis, inchains, c, i);
    OrphanChain(pool, f, c, inchains[c][i].b);
    hide OrphansListed, OrphanRoot, NodesOk;
    OrphansRenamed(pool, f, g, c, inchains[c], i, n);
    OrphansElsewhere(pool, f, g, genesis, inchains, c, inchains[c][i := Incomplete(n, 0, 0)]);
  }

  lemma OrphanChain(pool: Pool, f: Forest, c: nat, n: Node)
    requires OrphanRoot(pool, f, c, n)
    ensures n in f.nodes && n.hash in f.shape && n.hash in pool && pool[n.hash].chain == c && pool[n.hash].depth > 0
  {
  }

  ghost predicate InSome(pool: Pool, f: Forest, l: seq<Incomplete>, h: Hash) {
    exists j :: 0 <= j < |l| && NodeIn(pool, f, l[j].b.hash, h) != null
  }

  /** A block that is anywhere is in the main tree of its chain or in an orphan tree of its chain. */
  lemma Somewhere(pool: Pool, f: Forest, genesis: seq<Hash>, chains: seq<Node>, inchains: seq<seq<Incomplete>>, c: nat,
      h: Hash)
    requires TreesOk(pool, f, genesis, chains) && AllOrphansListed(pool, f, genesis, inchains) && c < |genesis|
    requires c < |inchains|
    requires h in pool && pool[h].chain == c && h in f.at
    ensures NodeIn(pool, f, genesis[c], h) != null || InSome(pool, f, inchains[c], h)
  {
    TreesParts(pool, f, genesis, chains);
    RootInShape(pool, f, h);
    RootShape(pool, f.held, h);
    OrphanFacts(pool, f, genesis, inchains, c, 0);
    var r := Root(pool, f.held, h);
    hide TreesOk, ForestOk, AllNeeded, Root, NodesOk, OrphansListed, AllOrphansListed, Linked;
    if r != genesis[c] {
      var j :| 0 <= j < |inchains[c]| && inchains[c][j].b.hash == r;
      assert NodeIn(pool, f, inchains[c][j].b.hash, h) == f.at[h];
    }
  }

  /** The tree of an orphan list that has an unheld block has it at its root. */
  lemma UnheldIsRoot(pool: Pool, f: Forest, r: Hash, h: Hash)
    requires NodeIn(pool, f, r, h) != null && h !in f.held
    ensures r == h
  {
  }

  lemma OrphanTop(pool: Pool, f: Forest, genesis: seq<Hash>, inchains: seq<seq<Incomplete>>, c: nat, i: nat)
    requires ForestOk(pool, f) && AllOrphansListed(pool, f, genesis, inchains) && c < |genesis| && c < |inchains|
    requires i < |inchains[c]|
    ensures var b := inchains[c][i].b; b in f.nodes && b.hash in f.shape && Top(f.shape[b.hash]) == b
  {
    OrphanFacts(pool, f, genesis, inchains, c, i);
    OrphanChain(pool, f, c, inchains[c][i].b);
    hide OrphansListed, AllOrphansListed, ForestOk;
    TopIsNode(pool, f, inchains[c][i].b.hash, inchains[c][i].b);
  }

  function ListOf(inchains: seq<seq<Incomplete>>, c: nat): seq<Incomplete> {
    if c < |inchains| then inchains[c] else []
  }

  function ListUpdated(inchains: seq<seq<Incomplete>>, c: nat, l: seq<Incomplete>): seq<seq<Incomplete>> {
    if c < |inchains| then inchains[c := l] else inchains
  }

  /** Only the list of chain c may have changed. */
  ghost predicate OtherListsSame(was: seq<seq<Incomplete>>, now: seq<seq<Incomplete>>, c: nat) {
    |was| == |now| && forall d :: 0 <= d < |was| && d != c ==> now[d] == was[d]
  }

  function EntryReplaced(l: seq<Incomplete>, i: nat, e: Incomplete): seq<Incomplete> {
    if i < |l| then l[i := e] else l
  }

  function EntryRemoved(l: seq<Incomplete>, i: nat): seq<Incomplete> {
    if i < |l| then l[..i] + l[i + 1..] else l
  }

  // ---------- a root is added for a missing block ----------

  lemma RootedTrees(pool: Pool, f: Forest, genesis: seq<Hash>, chains: seq<Node>, n: Node)
    requires TreesOk(pool, f, genesis, chains) && IsNewcomer(pool, f, n)
    ensures TreesBut(pool, NewRoot(f, n), genesis, chains, n.hash) && NodeIn(pool, NewRoot(f, n), n.hash, n.hash) == n
    ensures NewRoot(f, n).nodes == f.nodes + {n} && NewRoot(f, n).shape.Keys == f.shape.Keys + {n.hash}
    ensures Top(NewRoot(f, n).shape[n.hash]) == n
    ensures NewRoot(f, n).at == f.at[n.hash := n] && NewRoot(f, n).held == f.held
  {
    hide IsNewcomer, ForestOk, NodesOk, Linked, Needed, NeededBut, AllNeeded, GenesisOk, NewRoot;
    TreesParts(pool, f, genesis, chains);
    NewcomerHash(pool, f, n);
    NewRootOk(pool, f, n);
    NewRootFields(f, n);
    UnheldRoot(pool, f.held, n.hash);
    RootedNeeded(pool, f, n);
    var g := NewRoot(f, n);
    forall c | 0 <= c < |chains| ensures MainTop(g, genesis[c], chains[c]) { assert MainTop(f, genesis[c], chains[c]); }
  }

  lemma RootedNeeded(pool: Pool, f: Forest, n: Node)
    requires AllNeeded(pool, f)
    ensures NeededBut(pool, NewRoot(f, n), n.hash)
  {
    hide Needed;
    var g := NewRoot(f, n);
    forall q | q in g.shape && q != n.hash ensures Needed(pool, g, q) { NeededStays(pool, f, g, q); }
  }

  lemma NewcomerHash(pool: Pool, f: Forest, n: Node)
    requires NodesOk(pool, f) && IsNewcomer(pool, f, n)
    ensures n !in f.nodes && n.hash in pool && n.hash !in f.at && n.hash !in f.held && n.hash !in f.shape
  {
  }

  /** A new node for the missing parent of block h can start an orphan tree. */
  lemma RootReady(pool: Pool, f: Forest, genesis: seq<Hash>, chains: seq<Node>, c: nat, h: Hash, n: Node)
    requires TreesOk(pool, f, genesis, chains) && c < |genesis| && n !in f.nodes && n.hash !in f.at
    requires h in pool && pool[h].depth > 0 && pool[h].chain == c && pool[h].parent == n.hash
    ensures IsNewcomer(pool, f, n) && TreesBut(pool, NewRoot(f, n), genesis, chains, n.hash) && ForestOk(pool, f)
    ensures NodeIn(pool, NewRoot(f, n), n.hash, n.hash) == n && n.hash in NewRoot(f, n).shape
    ensures Top(NewRoot(f, n).shape[n.hash]) == n
    ensures NewRoot(f, n).nodes == f.nodes + {n} && NewRoot(f, n).shape.Keys == f.shape.Keys + {n.hash}
    ensures NewRoot(f, n).at == f.at[n.hash := n]
    ensures n.hash in pool && pool[n.hash].chain == c && pool[n.hash].depth > 0 && n.hash != h
  {
    TreesParts(pool, f, genesis, chains);
    GenesisIn(pool, f, genesis, chains);
    hide TreesOk, ForestOk, AllNeeded, NodesOk, NodeIn, Top, NewRoot;
    RootedTrees(pool, f, genesis, chains, n);
  }

  lemma StartedOrphan(pool: Pool, f: Forest, g: Forest, genesis: seq<Hash>, inchains: seq<seq<Incomplete>>, c: nat,
      n: Node)
    requires AllOrphansListed(pool, f, genesis, inchains) && c < |inchains| && f.nodes <= g.nodes && n !in f.nodes
    requires n in g.nodes
    requires g.shape.Keys == f.shape.Keys + {n.hash} && n.hash in pool && pool[n.hash].depth > 0
    requires pool[n.hash].chain == c
    ensures AllOrphansListed(pool, g, genesis, inchains[c := inchains[c] + [Incomplete(n, 0, 0)]])
  {
    hide AllOrphansListed;
    OrphansAfterNew(pool, f, g, genesis, inchains, c, n);
  }

  lemma TwoNew(f: Forest, g: Forest, a: Node, b: Node)
    requires f.nodes <= g.nodes <= f.nodes + {a, b} && !a.isFull && a.header == None && !b.isFull && b.header == None
    ensures NewNodes(f, g)
  {
  }

  lemma SameEntry(l: seq<Incomplete>, i: nat, b: Node)
    requires i < |l| && l[i].b == b
    ensures l[i := l[i].(b := b)] == l
  {
    assert l[i].(b := b) == l[i];
  }

  lemma SameNodes(f: Forest, g: Forest)
    requires f.nodes == g.nodes
    ensures NewNodes(f, g)
  {
  }

  /** A root made for the missing parent of h can take the orphan tree that waits for h. */
  lemma AboveReady(pool: Pool, f: Forest, genesis: seq<Hash>, chains: seq<Node>, inchains: seq<seq<Incomplete>>, c: nat,
      i: nat, h: Hash, n: Node)
    requires TreesOk(pool, f, genesis, chains) && AllOrphansListed(pool, f, genesis, inchains) && n !in f.nodes
    requires n.hash !in f.at
    requires c < |genesis| && c < |inchains| && i < |inchains[c]| && inchains[c][i].b.hash == h
    requires h in pool && pool[h].depth > 0 && pool[h].chain == c && pool[h].parent == n.hash
    ensures var b, g := inchains[c][i].b, NewRoot(f, n);
      && ForestOk(pool, g) && CanHang(pool, g, h, b, n.hash, n) && n in g.kids && h in g.shape && n.hash in g.shape
      && var k := Hang(g, h, b, n.hash, n);
      && TreesOk(pool, k, genesis, chains) && Joined(f, h, k) && k.nodes == f.nodes + {n}
      && AllOrphansListed(pool, k, genesis, inchains[c := inchains[c][i := Incomplete(n, 0, 0)]])
  {
    hide TreesOk, TreesBut, ForestOk, AllNeeded, NodesOk, OrphansListed, AllOrphansListed, Joined, NodeIn, Root, Linked;
    hide Top, Hang, OrphanRoot, CanHang, NewRoot;
    var b, g := inchains[c][i].b, NewRoot(f, n);
    TreesParts(pool, f, genesis, chains);
    RootReady(pool, f, genesis, chains, c, h, n);
    PartsBut(pool, g, genesis, chains, n.hash);
    NodeInFacts(pool, g, n.hash, n.hash);
    OrphanFacts(pool, f, genesis, inchains, c, i);
    AboveCanHang(pool, f, g, genesis, chains, c, inchains[c], i, h, n);
    HungTrees(pool, g, genesis, chains, h, b, n.hash, n);
    HangFields(g, h, b, n.hash, n);
    JoinedThrough(f, n, h, Hang(g, h, b, n.hash, n));
    OrphanIs(pool, Hang(g, h, b, n.hash, n), c, n);
    OrphansAfterAbove(pool, f, Hang(g, h, b, n.hash, n), genesis, inchains, c, i, n);
  }

  lemma OrphanIs(pool: Pool, f: Forest, c: nat, n: Node)
    requires n in f.nodes && n.hash in f.shape && n.hash in pool && pool[n.hash].depth > 0 && pool[n.hash].chain == c
    ensures OrphanRoot(pool, f, c, n)
  {
  }

  lemma AboveCanHang(pool: Pool, f: Forest, g: Forest, genesis: seq<Hash>, chains: seq<Node>, c: nat,
      l: seq<Incomplete>, i: nat, h: Hash, n: Node)
    requires NodesOk(pool, f) && ForestOk(pool, g) && OrphansListed(pool, f, c, l) && i < |l| && l[i].b.hash == h
    requires h in pool
    requires g.nodes == f.nodes + {n} && g.shape.Keys == f.shape.Keys + {n.hash} && g.held == f.held && n.hash !in f.at
    requires n.hash != h
    requires NodeIn(pool, g, n.hash, n.hash) == n && pool[h].parent == n.hash
    ensures CanHang(pool, g, h, l[i].b, n.hash, n) && n in g.kids && h in g.shape && n.hash in g.shape
  {
    assert OrphanRoot(pool, f, c, l[i].b);
    assert h !in g.held;
    hide ShapeOk, KidsOk, Linked, Root;
  }

  /** Neither end of a parent link is in the main tree: what is in no orphan tree of the chain is nowhere. */
  lemma Whereabouts(pool: Pool, f: Forest, genesis: seq<Hash>, chains: seq<Node>, inchains: seq<seq<Incomplete>>,
      c: nat, h: Hash)
    requires TreesOk(pool, f, genesis, chains) && AllOrphansListed(pool, f, genesis, inchains) && c < |genesis|
    requires c < |inchains|
    requires h in pool && pool[h].depth > 0 && pool[h].chain == c
    requires NodeIn(pool, f, genesis[c], h) == null && NodeIn(pool, f, genesis[c], pool[h].parent) == null
    ensures !InSome(pool, f, inchains[c], h) ==> h !in f.at
    ensures !InSome(pool, f, inchains[c], pool[h].parent) ==> pool[h].parent !in f.at
  {
    TreesParts(pool, f, genesis, chains);
    hide TreesOk, ForestOk, AllNeeded, NodesOk, AllOrphansListed, NodeIn, InSome;
    if h in f.at { Somewhere(pool, f, genesis, chains, inchains, c, h); }
    if pool[h].parent in f.at { Somewhere(pool, f, genesis, chains, inchains, c, pool[h].parent); }
  }

  lemma HeldSomewhere(pool: Pool, f: Forest, genesis: seq<Hash>, chains: seq<Node>, inchains: seq<seq<Incomplete>>,
      c: nat, h: Hash)
    requires TreesOk(pool, f, genesis, chains) && AllOrphansListed(pool, f, genesis, inchains) && c < |genesis|
    requires c < |inchains|
    requires h in pool && pool[h].chain == c && NodeIn(pool, f, genesis[c], h) == null
    ensures h in f.held ==> InSome(pool, f, inchains[c], h)
  {
    if h in f.held {
      TreesParts(pool, f, genesis, chains);
      assert h in f.at;
      hide TreesOk, ForestOk, AllNeeded, NodesOk, AllOrphansListed, NodeIn, InSome;
      Somewhere(pool, f, genesis, chains, inchains, c, h);
    }
  }

  /** A node found in a tree has a parent exactly if its header is held. */
  lemma ParentKnown(pool: Pool, f: Forest, r: Hash, h: Hash)
    requires ForestOk(pool, f) && LinksOk(pool, f) && h in pool && NodeIn(pool, f, r, h) != null
    ensures var p := NodeIn(pool, f, r, h).parent; (p != null <==> h in f.held) && (p != null ==> p.hash == pool[h].parent)
  {
    hide ShapeOk, KidsOk, Root, SearchesSpell, ListsSpell, Linked;
    var n := NodeIn(pool, f, r, h);
    assert n in f.nodes && n.hash == h && n.parent == ParentOf(pool, f, n);
    if h in f.held { assert pool[h].parent in f.at; }
  }

  lemma NodeInAt(pool: Pool, f: Forest, r: Hash, h: Hash)
    requires NodeIn(pool, f, r, h) != null
    ensures h in f.at && NodeIn(pool, f, r, h) == f.at[h]
  {
  }

  lemma JoinedThrough(f: Forest, n: Node, h: Hash, g: Forest)
    requires Joined(NewRoot(f, n), h, g) && n.hash !in f.at
    ensures Joined(f, h, g)
  {
  }

  // ---------- a tree is hung ----------

  /** Every part of the trees' invariant but the pointers, once an orphan tree has been hung. */
  lemma HungTrees(pool: Pool, f: Forest, genesis: seq<Hash>, chains: seq<Node>, h: Hash, b: Node, r: Hash, p: Node)
    requires TreesBut(pool, f, genesis, chains, p.hash) && CanHang(pool, f, h, b, r, p)
    ensures p in f.kids && TreesOk(pool, Hang(f, h, b, r, p), genesis, chains) && Joined(f, h, Hang(f, h, b, r, p))
    ensures Root(pool, Hang(f, h, b, r, p).held, h) == r && Hang(f, h, b, r, p).nodes == f.nodes
    ensures Hang(f, h, b, r, p).shape.Keys == f.shape.Keys - {h}
  {
    PartsBut(pool, f, genesis, chains, p.hash);
    hide ForestOk, NeededBut, Hang, MainTops, GenesisOk, NodesOk;
    HangJoins(pool, f, h, b, r, p);
    RootOfJoined(pool, f, h);
    MainTopsStay(pool, f, h, Hang(f, h, b, r, p), genesis, chains);
  }

  lemma JoinedIn(pool: Pool, f: Forest, h: Hash, g: Forest, r: Hash)
    requires Joined(f, h, g) && Root(pool, g.held, h) == r
    ensures NodeIn(pool, g, r, h) != null
  {
  }

  /** The tree of entry i of an orphan list, waiting for block h, can be hung under the parent of h. */
  lemma HangTreeReady(pool: Pool, f: Forest, genesis: seq<Hash>, chains: seq<Node>, inchains: seq<seq<Incomplete>>,
      c: nat, i: nat, h: Hash, r: Hash, p: Node)
    requires TreesOk(pool, f, genesis, chains) && AllOrphansListed(pool, f, genesis, inchains) && r in f.shape
    requires c < |genesis| && c < |inchains| && i < |inchains[c]| && inchains[c][i].b.hash == h && h in pool
    requires p == NodeIn(pool, f, r, pool[h].parent)
    ensures ForestOk(pool, f)
    ensures var b := inchains[c][i].b;
      && CanHang(pool, f, h, b, r, p) && b in f.nodes && h in f.shape && p in f.kids
      && (forall j :: 0 <= j < i ==> inchains[c][j].b != b)
      && var g := Hang(f, h, b, r, p);
      && TreesOk(pool, g, genesis, chains) && Joined(f, h, g) && g.nodes == f.nodes && Root(pool, g.held, h) == r
      && NodeIn(pool, g, r, h) != null
      && AllOrphansListed(pool, g, genesis, inchains[c := inchains[c][..i] + inchains[c][i + 1..]])
  {
    hide TreesOk, TreesBut, ForestOk, AllNeeded, NodesOk, OrphansListed, AllOrphansListed, Joined, NodeIn, Root, Linked;
    hide Top, Hang, OrphanRoot;
    var b := inchains[c][i].b;
    TreesParts(pool, f, genesis, chains);
    OrphanFacts(pool, f, genesis, inchains, c, i);
    NodeInFacts(pool, f, r, pool[h].parent);
    OrphanCanHang(pool, f, genesis, c, inchains[c], i, h, r, p);
    OkBut(pool, f, genesis, chains, p.hash);
    HungTrees(pool, f, genesis, chains, h, b, r, p);
    OrphansAfterTree(pool, f, Hang(f, h, b, r, p), genesis, inchains, c, i);
    JoinedIn(pool, f, h, Hang(f, h, b, r, p), r);
  }

  lemma ConnectTreeReady(pool: Pool, f: Forest, genesis: seq<Hash>, chains: seq<Node>, inchains: seq<seq<Incomplete>>,
      c: nat, i: nat, h: Hash, p: Node)
    requires TreesOk(pool, f, genesis, chains) && AllOrphansListed(pool, f, genesis, inchains)
    requires c < |genesis| && c < |inchains| && i < |inchains[c]| && inchains[c][i].b.hash == h && h in pool
    requires p == NodeIn(pool, f, genesis[c], pool[h].parent)
    ensures c < |chains| && ForestOk(pool, f)
    ensures var b, r := inchains[c][i].b, genesis[c];
      && CanHang(pool, f, h, b, r, p) && b in f.nodes && r in f.shape && chains[c] == Top(f.shape[r]) && h in f.shape && p in f.kids
      && (forall j :: 0 <= j < i ==> inchains[c][j].b != b)
      && var g := Hang(f, h, b, r, p);
      && TreesOk(pool, g, genesis, chains) && Joined(f, h, g) && g.nodes == f.nodes && Root(pool, g.held, h) == r
      && NodeIn(pool, g, r, h) != null
      && AllOrphansListed(pool, g, genesis, inchains[c := inchains[c][..i] + inchains[c][i + 1..]])
  {
    hide TreesOk, ForestOk, AllNeeded, NodesOk, AllOrphansListed, Joined, NodeIn, Root, Linked, Top, Hang;
    TreeFacts(pool, f, genesis, chains, c);
    HangTreeReady(pool, f, genesis, chains, inchains, c, i, h, genesis[c], p);
  }

  // ---------- a leaf is added ----------

  lemma GrowPossible(pool: Pool, f: Forest, h: Hash, r: Hash, p: Node)
    requires ForestOk(pool, f) && h in pool && pool[h].depth > 0 && h !in f.at && r in f.shape
    requires p == NodeIn(pool, f, r, pool[h].parent)
    ensures CanGrow(pool, f, h, r, p) && p in f.kids && p.hash == pool[h].parent
  {
    NodeInFacts(pool, f, r, pool[h].parent);
    hide NodesOk, ShapeOk, KidsOk, Root, NodeIn, Linked;
  }

  lemma CanGrowHash(pool: Pool, f: Forest, h: Hash, r: Hash, p: Node)
    requires CanGrow(pool, f, h, r, p) && NodesOk(pool, f)
    ensures h in pool && pool[h].depth > 0 && h !in f.held && r == Root(pool, f.held, pool[h].parent)
  {
  }

  /** Every part of the trees' invariant but the pointers, once a leaf has been added. */
  lemma GrownTrees(pool: Pool, f: Forest, genesis: seq<Hash>, chains: seq<Node>, n: Node, r: Hash, p: Node)
    requires TreesBut(pool, f, genesis, chains, p.hash) && CanGrow(pool, f, n.hash, r, p) && n !in f.nodes
    requires p in f.kids && r in f.shape
    ensures var g := Grow(f, n, r, p);
      && TreesOk(pool, g, genesis, chains) && Joined(f, n.hash, g) && g.nodes == f.nodes + {n} && g.shape.Keys == f.shape.Keys
      && ForestOk(pool, g) && n in g.kids && g.kids[n] == [] && NodeIn(pool, g, r, n.hash) == n
  {
    hide ForestOk, NeededBut, MainTops, GenesisOk, NodesOk, Grow, CanGrow, Needed, OrphansListed, Linked;
    var g := Grow(f, n, r, p);
    PartsBut(pool, f, genesis, chains, p.hash);
    CanGrowHash(pool, f, n.hash, r, p);
    GrowJoins(pool, f, n, r, p);
    MainTopsStay(pool, f, n.hash, g, genesis, chains);
    RootOfJoined(pool, f, n.hash);
  }

  lemma LeafReady(pool: Pool, f: Forest, genesis: seq<Hash>, chains: seq<Node>, c: nat, parent: Hash)
    requires TreesOk(pool, f, genesis, chains) && c < |genesis|
    ensures c < |chains| && genesis[c] in f.shape && chains[c] == Top(f.shape[genesis[c]])
    ensures TreesBut(pool, f, genesis, chains, parent)
  {
    TreeFacts(pool, f, genesis, chains, c);
    OkBut(pool, f, genesis, chains, parent);
  }

  lemma LeafPending(pool: Pool, f: Forest, genesis: seq<Hash>, chains: seq<Node>, c: nat, n: Node)
    requires TreesOk(pool, f, genesis, chains) && c < |genesis| && n in f.nodes && n in f.kids && f.kids[n] == []
    requires NodeIn(pool, f, genesis[c], n.hash) == n && !n.isFull
    ensures Pending(pool, f, n.hash) == {n.hash}
  {
    hide TreesOk, ForestOk, Anchored, Pending;
    MainKnown(pool, f, genesis, chains, c, n.hash);
    InForest(pool, f, n);
    PendingSplit(pool, f, n);
  }

  // ---------- the records when a header joins ----------

  lemma JoinedHeld(f: Forest, h: Hash, g: Forest)
    requires Joined(f, h, g)
    ensures g.held == f.held + {h} && h in g.held && f.nodes <= g.nodes
  {
  }

  /** The records once a header has joined the main tree, except its own header. */
  lemma RecordsJoin(pool: Pool, f: Forest, h: Hash, g: Forest, genesis: seq<Hash>, chains: seq<Node>, c: nat,
      was: map<Hash, (nat, nat)>, total: nat, now: map<Hash, (nat, nat)>, total': nat, log: seq<Hash>)
    requires TreesOk(pool, f, genesis, chains) && TreesOk(pool, g, genesis, chains) && Joined(f, h, g) && NewNodes(f, g)
    requires h in pool && pool[h].depth > 0 && h !in f.held && pool[h].chain == c
    requires HeadersSet(pool, f.nodes, f.held) && FullAnchored(pool, f.nodes, f.held) && IndexExact(pool, f, was)
    requires CommitsOk(pool, f, log)
    requires Indexed(was, total, now, total', c, Pending(pool, g, h))
    ensures HeadersBut(pool, g.nodes, g.held, h) && FullAnchored(pool, g.nodes, g.held) && IndexExact(pool, g, now)
    ensures CommitsOk(pool, g, log)
    ensures total' + |was| == total + |now| && FullBlocks(g) == FullBlocks(f)
  {
    hide TreesOk, ForestOk, AllNeeded, Linked, Joined, NewNodes, HeadersSet, FullAnchored, IndexExact, CommitsOk;
    hide Pending, Indexed, HeadersBut, Under, ToFetch;
    TreesParts(pool, f, genesis, chains);
    TreesParts(pool, g, genesis, chains);
    GenesisIn(pool, f, genesis, chains);
    PendingIs(pool, g, h);
    IndexedIs(was, total, now, total', c, Pending(pool, g, h));
    CommitsStay(pool, f, h, g, log);
    hide NodesOk;
    HeadersJoin(pool, f, h, g);
    FullStays(pool, f, h, g);
    IndexJoin(pool, f, h, g, was, now, c);
    SameFull(pool, f, h, g);
  }

  lemma PendingIs(pool: Pool, g: Forest, h: Hash)
    requires NodesOk(pool, g)
    ensures forall x :: x in Pending(pool, g, h) <==> ToFetch(pool, g, x) && Under(pool, g.held, h, x)
  {
    hide NodesOk, Root, Path;
  }

  lemma IndexedIs(was: map<Hash, (nat, nat)>, total: nat, now: map<Hash, (nat, nat)>, total': nat, c: nat,
      more: set<Hash>)
    requires Indexed(was, total, now, total', c, more)
    ensures forall x :: x in now <==> x in was || x in more
    ensures forall x :: x in now ==> now[x] == if x in was then was[x] else (c, 0)
    ensures total' + |was| == total + |now|
  {
    assert now.Keys == was.Keys + more;
  }

  /** Entries stay as they are; new ones have not been asked for. */
  ghost predicate EntriesKept(was: map<Hash, (nat, nat)>, now: map<Hash, (nat, nat)>) {
    (forall h :: h in was ==> h in now && now[h] == was[h]) && forall h :: h in now && h !in was ==> now[h].1 == 0
  }

  lemma IndexedKeeps(was: map<Hash, (nat, nat)>, total: nat, now: map<Hash, (nat, nat)>, total': nat, c: nat,
      more: set<Hash>)
    requires Indexed(was, total, now, total', c, more)
    ensures EntriesKept(was, now)
  {
    assert forall h :: h in was ==> h in now.Keys;
  }

  lemma SameFull(pool: Pool, f: Forest, h: Hash, g: Forest)
    requires NodesOk(pool, f) && NodesOk(pool, g) && Joined(f, h, g) && NewNodes(f, g)
    ensures FullBlocks(g) == FullBlocks(f)
  {
    forall x | x in FullBlocks(g) ensures x in FullBlocks(f) {
      assert g.at[x] in f.nodes;
    }
  }

  lemma EndKnown(pool: Pool, f: Forest, h: Hash, g: Forest, genesis: seq<Hash>, chains: seq<Node>, deepest: seq<Node>,
      c: nat)
    requires TreesOk(pool, f, genesis, chains) && TreesOk(pool, g, genesis, chains) && Joined(f, h, g)
    requires HeadersSet(pool, g.nodes, g.held)
    requires EndsOk(pool, f, genesis, deepest) && c < |genesis| && h in pool && pool[h].depth > 0 && h !in f.held
    ensures |deepest| == |genesis| && deepest[c] in g.nodes && deepest[c].header.Some?
    ensures deepest[c].header.value.depth == Depth(pool, deepest[c].hash)
  {
    TreesParts(pool, f, genesis, chains);
    TreesParts(pool, g, genesis, chains);
    hide TreesOk, ForestOk, AllNeeded, Anchored, HeaderOf;
    StillAnchored(pool, f.held, h, deepest[c].hash);
    HeaderKnown(pool, g, deepest[c]);
  }

  /** Only the end of the chain of h may move, and it moves as a received header moves it. */
  ghost predicate Moved(pool: Pool, held: set<Hash>, h: Hash, was: seq<Hash>, now: seq<Hash>)
    requires h in pool
  {
    && |was| == |now| && pool[h].chain < |was| && (forall c :: 0 <= c < |was| && c != pool[h].chain ==> now[c] == was[c])
    && DeepestMoves(pool, held, h, was[pool[h].chain], now[pool[h].chain])
  }

  /** The ends of the chains when the deepest block below the new one is mx. */
  lemma EndsFollow(pool: Pool, f: Forest, h: Hash, g: Forest, genesis: seq<Hash>, chains: seq<Node>, deepest: seq<Node>,
      c: nat, mx: Node)
    requires TreesOk(pool, f, genesis, chains) && Joined(f, h, g) && EndsOk(pool, f, genesis, deepest) && c < |genesis|
    requires h in pool && pool[h].depth > 0 && h !in f.held && pool[h].chain == c && mx in g.nodes
    requires Under(pool, g.held, h, mx.hash) && NoneDeeper(pool, g.held, h, Depth(pool, mx.hash))
    requires |deepest| == |genesis|
    ensures var after := if Depth(pool, mx.hash) > Depth(pool, deepest[c].hash) then deepest[c := mx] else deepest;
      EndsOk(pool, g, genesis, after) && Moved(pool, g.held, h, Ends(deepest), Ends(after))
  {
    hide TreesOk, ForestOk, AllNeeded, Joined, Anchored, EndsOk, Under, NoneDeeper, DeepestMoves, Ends, Depth, Moved;
    TreesParts(pool, f, genesis, chains);
    var now := if Depth(pool, mx.hash) > Depth(pool, deepest[c].hash) then mx else deepest[c];
    EndIn(pool, f, h, g, genesis, deepest, c);
    InHeld(pool, f);
    hide NodesOk, Linked;
    MovesRight(pool, g.held, h, deepest[c].hash, mx.hash);
    EndsMove(pool, f, h, g, genesis, deepest, c, now);
    assert deepest[c := deepest[c]] == deepest;
    EndMoved(pool, g.held, h, deepest, c, now);
  }

  lemma EndIn(pool: Pool, f: Forest, h: Hash, g: Forest, genesis: seq<Hash>, deepest: seq<Node>, c: nat)
    requires EndsOk(pool, f, genesis, deepest) && Joined(f, h, g) && c < |deepest|
    ensures deepest[c] in g.nodes
  {
  }

  lemma InHeld(pool: Pool, f: Forest)
    requires NodesOk(pool, f)
    ensures HeldOk(pool, f.held)
  {
  }

  lemma EndMoved(pool: Pool, held: set<Hash>, h: Hash, deepest: seq<Node>, c: nat, now: Node)
    requires c < |deepest| && h in pool && pool[h].chain == c && DeepestMoves(pool, held, h, deepest[c].hash, now.hash)
    ensures Moved(pool, held, h, Ends(deepest), Ends(deepest[c := now]))
  {
    hide DeepestMoves;
  }

  lemma IsReceived(pool: Pool, s: NodeState, h: Hash, s': NodeState)
    requires h in pool && pool[h].depth > 0 && h !in s.held && Moved(pool, s'.held, h, s.deepest, s'.deepest)
    requires s'.held == s.held + {h} && s'.full == s.full && s'.committed == s.committed
    ensures Receives(pool, s, h, s')
  {
    hide DeepestMoves;
  }

  /** The new block is in an orphan tree when its parent is not in the main tree. */
  lemma OrphanNotAnchored(pool: Pool, f: Forest, h: Hash, g: Forest, genesis: seq<Hash>, chains: seq<Node>, c: nat)
    requires TreesOk(pool, f, genesis, chains) && Joined(f, h, g) && c < |genesis| && h !in f.held
    requires h in pool && pool[h].depth > 0 && pool[h].chain == c && NodeIn(pool, f, genesis[c], pool[h].parent) == null
    ensures !Anchored(pool, g.held, h)
  {
    TreesParts(pool, f, genesis, chains);
    GenesisIn(pool, f, genesis, chains);
    RootOfJoined(pool, f, h);
    RootShape(pool, f.held, pool[h].parent);
    JoinedHeld(f, h, g);
  }

  lemma OrphanRecords(pool: Pool, f: Forest, h: Hash, g: Forest, genesis: seq<Hash>, chains: seq<Node>,
      inchains: seq<seq<Incomplete>>, c: nat,
      nonFull: map<Hash, (nat, nat)>, log: seq<Hash>, deepest: seq<Node>)
    requires TreesOk(pool, f, genesis, chains) && TreesOk(pool, g, genesis, chains) && Joined(f, h, g) && NewNodes(f, g)
    requires AllOrphansListed(pool, g, genesis, inchains) && c < |genesis| && c < |inchains|
    requires EndsOk(pool, f, genesis, deepest)
    requires h in pool && pool[h].depth > 0 && h !in f.held && pool[h].chain == c
    requires NodeIn(pool, f, genesis[c], pool[h].parent) == null
    requires HeadersSet(pool, f.nodes, f.held) && FullAnchored(pool, f.nodes, f.held) && IndexExact(pool, f, nonFull)
    requires CommitsOk(pool, f, log)
    ensures HeadersBut(pool, g.nodes, g.held, h) && FullAnchored(pool, g.nodes, g.held) && IndexExact(pool, g, nonFull)
    ensures CommitsOk(pool, g, log)
    ensures FullBlocks(g) == FullBlocks(f) && EndsOk(pool, g, genesis, deepest) && !Anchored(pool, g.held, h)
    ensures NodesOk(pool, g)
    ensures Moved(pool, g.held, h, Ends(deepest), Ends(deepest)) && g.held == f.held + {h}
    ensures InSome(pool, g, inchains[c], h) && h in g.at && g.at[h] in g.nodes
  {
    hide TreesOk, ForestOk, AllNeeded, Linked, Joined, NewNodes, HeadersSet, FullAnchored, IndexExact, CommitsOk;
    hide HeadersBut, ToFetch;
    hide Anchored, EndsOk, NodeIn, Ends, InSome, AllOrphansListed, Moved;
    JoinedHeld(f, h, g);
    OrphanNotAnchored(pool, f, h, g, genesis, chains, c);
    TreesParts(pool, f, genesis, chains);
    TreesParts(pool, g, genesis, chains);
    GenesisIn(pool, f, genesis, chains);
    NowInOrphans(pool, g, genesis, chains, inchains, c, h);
    InHeld(pool, f);
    InHeld(pool, g);
    CommitsStay(pool, f, h, g, log);
    hide NodesOk;
    HeadersJoin(pool, f, h, g);
    FullStays(pool, f, h, g);
    IndexStays(pool, f, h, g, nonFull);
    SameFull(pool, f, h, g);
    EndsStay(pool, f, h, g, genesis, deepest);
    EndsUnmoved(pool, f, g, h, genesis, deepest);
  }

  lemma NowInOrphans(pool: Pool, g: Forest, genesis: seq<Hash>, chains: seq<Node>, inchains: seq<seq<Incomplete>>,
      c: nat, h: Hash)
    requires TreesOk(pool, g, genesis, chains) && AllOrphansListed(pool, g, genesis, inchains) && c < |genesis|
    requires c < |inchains|
    requires h in pool && pool[h].chain == c && h in g.held && !Anchored(pool, g.held, h)
    ensures InSome(pool, g, inchains[c], h) && h in g.at && g.at[h] in g.nodes
  {
    TreesParts(pool, g, genesis, chains);
    TreeFacts(pool, g, genesis, chains, c);
    assert h in g.at;
    hide TreesOk, ForestOk, AllNeeded, AllOrphansListed, InSome, Linked;
    Somewhere(pool, g, genesis, chains, inchains, c, h);
  }

  lemma EndsUnmoved(pool: Pool, f: Forest, g: Forest, h: Hash, genesis: seq<Hash>, deepest: seq<Node>)
    requires EndsOk(pool, f, genesis, deepest) && Linked(pool) && HeldOk(pool, g.held) && h in pool
    requires !Anchored(pool, g.held, h)
    requires pool[h].chain < |genesis|
    ensures Moved(pool, g.held, h, Ends(deepest), Ends(deepest))
  {
    NoMove(pool, g.held, h, deepest[pool[h].chain].hash);
    hide DeepestMoves, Linked, Anchored;
    assert Ends(deepest)[pool[h].chain] == deepest[pool[h].chain].hash;
  }

  lemma ChainExists(pool: Pool, f: Forest, genesis: seq<Hash>, chains: seq<Node>, h: Hash)
    requires TreesOk(pool, f, genesis, chains) && h in pool
    ensures pool[h].chain < |genesis| == |chains|
  {
  }

  /** A block found in the main tree is held or a genesis block. */
  lemma MainHeld(pool: Pool, f: Forest, genesis: seq<Hash>, chains: seq<Node>, c: nat, h: Hash)
    requires TreesOk(pool, f, genesis, chains) && c < |genesis| && NodeIn(pool, f, genesis[c], h) != null && h in pool
    ensures h in f.held || pool[h].depth == 0
  {
    TreeFacts(pool, f, genesis, chains, c);
    hide TreesOk, ForestOk, AllNeeded, NodesOk;
    if h !in f.held { UnheldRoot(pool, f.held, h); }
  }

  lemma NotGenesis(pool: Pool, f: Forest, genesis: seq<Hash>, chains: seq<Node>, c: nat, h: Hash)
    requires TreesOk(pool, f, genesis, chains) && c < |genesis| && h in pool && pool[h].chain == c
    requires NodeIn(pool, f, genesis[c], h) == null
    ensures pool[h].depth > 0
  {
    GenesisIn(pool, f, genesis, chains);
    hide ForestOk, AllNeeded, MainTops;
  }

  // ---------- the fetch index ----------

  lemma FirstEntry(was: map<Hash, (nat, nat)>, total: nat, now: map<Hash, (nat, nat)>, total': nat, h: Hash, c: nat,
      full: bool)
    requires if h !in was && !full then now == was[h := (c, 0)] && total' == total + 1 else now == was && total' == total
    ensures Indexed(was, total, now, total', c, if full then {} else {h})
  {
    if h !in was && !full { assert |now| == |was| + 1; }
  }

  lemma MoreEntries(a: map<Hash, (nat, nat)>, i: nat, b: map<Hash, (nat, nat)>, j: nat, d: map<Hash, (nat, nat)>,
      k: nat, c: nat, s: set<Hash>, t: set<Hash>)
    requires Indexed(a, i, b, j, c, s) && Indexed(b, j, d, k, c, t)
    ensures Indexed(a, i, d, k, c, s + t)
  {
  }

  // ---------- a block becomes full ----------

  lemma FetchNode(pool: Pool, f: Forest, genesis: seq<Hash>, chains: seq<Node>, h: Hash, nonFull: map<Hash, (nat, nat)>)
    requires TreesOk(pool, f, genesis, chains) && ToFetch(pool, f, h) && IndexExact(pool, f, nonFull)
    ensures h in pool && pool[h].chain < |genesis| && NodeIn(pool, f, genesis[pool[h].chain], h) == f.at[h]
    ensures h in nonFull && NodesOk(pool, f)
    ensures h in f.at && f.at[h] in f.nodes
  {
    TreesParts(pool, f, genesis, chains);
    RootShape(pool, f.held, h);
    hide ForestOk, MainTops, AllNeeded, Linked;
  }

  // ---------- a mined block ----------

  lemma EndIsMain(pool: Pool, f: Forest, genesis: seq<Hash>, chains: seq<Node>, deepest: seq<Node>, c: nat)
    requires TreesOk(pool, f, genesis, chains) && EndsOk(pool, f, genesis, deepest) && c < |genesis|
    ensures |deepest| == |genesis| && deepest[c] in f.nodes
    ensures NodeIn(pool, f, genesis[c], deepest[c].hash) == deepest[c]
  {
    TreesParts(pool, f, genesis, chains);
    assert IsDeepest(pool, f.held, c, deepest[c].hash);
    RootShape(pool, f.held, deepest[c].hash);
    hide TreesOk, ForestOk, AllNeeded, Linked, Root;
  }

  lemma LeafNoneDeeper(pool: Pool, f: Forest, n: Node)
    requires ForestOk(pool, f) && n in f.nodes && n in f.kids && f.kids[n] == []
    ensures NoneDeeper(pool, f.held, n.hash, Depth(pool, n.hash))
  {
    hide ForestOk, NoneDeeper, Depth;
    NoneDeeperJoins(pool, f, n, Depth(pool, n.hash));
  }

  lemma NotIndexed(pool: Pool, f: Forest, index: map<Hash, (nat, nat)>, h: Hash)
    requires IndexExact(pool, f, index) && h !in f.at
    ensures h !in index
  {
    assert !ToFetch(pool, f, h);
  }

  /** Putting h into the index and taking it out again leaves the index as it was. */
  ghost predicate Unindexed(m: map<Hash, (nat, nat)>, h: Hash, c: nat) {
    h !in m && m[h := (c, 0)] - {h} == m
  }

  lemma PutBack(m: map<Hash, (nat, nat)>, h: Hash, c: nat)
    requires h !in m
    ensures Unindexed(m, h, c)
  {
    assert m[h := (c, 0)] - {h} == m;
  }

  /** The records once a mined block has joined the main tree: its header and its full flag are still to be set. */
  lemma MinedRecords(pool: Pool, f: Forest, h: Hash, g: Forest, genesis: seq<Hash>, chains: seq<Node>, c: nat,
      index: map<Hash, (nat, nat)>, log: seq<Hash>, n: Node)
    requires TreesOk(pool, f, genesis, chains) && TreesOk(pool, g, genesis, chains) && Joined(f, h, g) && NewNodes(f, g)
    requires c < |genesis|
    requires h in pool && pool[h].depth > 0 && h !in f.at && pool[h].chain == c && Pending(pool, g, h) == {h}
    requires HeadersSet(pool, f.nodes, f.held) && FullAnchored(pool, f.nodes, f.held) && IndexExact(pool, f, index)
    requires CommitsOk(pool, f, log)
    requires NodeIn(pool, g, genesis[c], h) == n
    ensures HeadersBut(pool, g.nodes, g.held, h) && FullAnchored(pool, g.nodes, g.held) && CommitsOk(pool, g, log)
    ensures IndexExact(pool, g, index[h := (c, 0)]) && Unindexed(index, h, c)
    ensures FullBlocks(g) == FullBlocks(f) && g.held == f.held + {h}
    ensures NodesOk(pool, g) && h in g.held && h in g.at && g.at[h] == n && n in g.nodes && n.hash == h
  {
    hide TreesOk, ForestOk, AllNeeded, Linked, Joined, NewNodes, HeadersSet, FullAnchored, IndexExact, CommitsOk;
    hide Pending, Indexed, HeadersBut;
    hide EndsOk, NodeIn, Anchored, Under, NoneDeeper, Moved, Ends, Depth, FullBlocks;
    JoinedHeld(f, h, g);
    MinedNotHeld(pool, f, genesis, chains, h);
    NotIndexed(pool, f, index, h);
    PutBack(index, h, c);
    hide Unindexed;
    FirstEntry(index, 0, index[h := (c, 0)], 1, h, c, false);
    RecordsJoin(pool, f, h, g, genesis, chains, c, index, 0, index[h := (c, 0)], 1, log);
    MainKnown(pool, g, genesis, chains, c, h);
  }

  lemma MinedEnds(pool: Pool, f: Forest, h: Hash, g: Forest, genesis: seq<Hash>, chains: seq<Node>, c: nat,
      deepest: seq<Node>, n: Node)
    requires TreesOk(pool, f, genesis, chains) && TreesOk(pool, g, genesis, chains) && Joined(f, h, g) && c < |genesis|
    requires h in pool && pool[h].depth > 0 && h !in f.at && pool[h].chain == c
    requires EndsOk(pool, f, genesis, deepest) && |deepest| == |genesis| && deepest[c].hash == pool[h].parent
    requires NodeIn(pool, g, genesis[c], h) == n && n in g.kids && g.kids[n] == []
    ensures EndsOk(pool, g, genesis, deepest[c := n]) && Ends(deepest[c := n]) == Ends(deepest)[c := h]
  {
    hide TreesOk, ForestOk, NodesOk, Linked, Joined, EndsOk, NodeIn, Anchored, Under, NoneDeeper, Moved, Ends, Depth;
    MinedNotHeld(pool, f, genesis, chains, h);
    MainKnown(pool, g, genesis, chains, c, h);
    LeafNoneDeeper(pool, g, n);
    UnderItself(pool, g.held, h);
    Deeper(pool, f, genesis, chains, h);
    EndsFollow(pool, f, h, g, genesis, chains, deepest, c, n);
    MinedView(deepest, n, c);
  }

  /** The ends of the chains when n becomes the end of chain c. */
  function Replaced(deepest: seq<Node>, c: nat, n: Node): seq<Node> {
    if c < |deepest| then deepest[c := n] else deepest
  }

  lemma MinedView(ends: seq<Node>, n: Node, c: nat)
    requires c < |ends|
    ensures |Ends(ends)| == |ends| && Ends(ends[c := n]) == Ends(ends)[c := n.hash]
  {
  }

  lemma EndsLength(deepest: seq<Node>)
    ensures |Ends(deepest)| == |deepest|
  {
  }

  lemma MinedNotHeld(pool: Pool, f: Forest, genesis: seq<Hash>, chains: seq<Node>, h: Hash)
    requires TreesOk(pool, f, genesis, chains) && h !in f.at
    ensures h !in f.held
  {
    TreesParts(pool, f, genesis, chains);
  }

  lemma Deeper(pool: Pool, f: Forest, genesis: seq<Hash>, chains: seq<Node>, h: Hash)
    requires TreesOk(pool, f, genesis, chains) && h in pool && pool[h].depth > 0
    ensures Depth(pool, h) > Depth(pool, pool[h].parent)
  {
    TreesParts(pool, f, genesis, chains);
    hide TreesOk, ForestOk;
  }

  /** Everything is in place for the mined block h, the node n, but its full flag. */
  ghost predicate MinedBut(pool: Pool, f: Forest, genesis: seq<Hash>, deepest: seq<Node>, index: map<Hash, (nat, nat)>,
      log: seq<Hash>, h: Hash, c: nat, n: Node)
    reads f.nodes`header, f.nodes`isFull, f.nodes`timeCommited, n`timeCommited
  {
    && NodesOk(pool, f) && h in f.at && f.at[h] == n && n in f.nodes && n.timeCommited == 0
    && HeadersSet(pool, f.nodes, f.held) && FullAnchored(pool, f.nodes, f.held) && EndsOk(pool, f, genesis, deepest)
      && CommitsOk(pool, f, log)
    && Unindexed(index, h, c) && IndexExact(pool, f, index[h := (c, 0)])
  }

  /** As `MinedBut`, with the header still missing as well. */
  ghost predicate MinedHalf(pool: Pool, f: Forest, genesis: seq<Hash>, deepest: seq<Node>, index: map<Hash, (nat, nat)>,
      log: seq<Hash>, h: Hash, c: nat, n: Node)
    reads f.nodes`header, f.nodes`isFull, f.nodes`timeCommited, n`timeCommited
  {
    && NodesOk(pool, f) && h in f.at && f.at[h] == n && n in f.nodes && n.timeCommited == 0 && h in f.held && h in pool
    && HeadersBut(pool, f.nodes, f.held, h) && FullAnchored(pool, f.nodes, f.held)
      && EndsOk(pool, f, genesis, deepest) && CommitsOk(pool, f, log)
    && Unindexed(index, h, c) && IndexExact(pool, f, index[h := (c, 0)])
  }

  lemma MinedReady(pool: Pool, f: Forest, h: Hash, g: Forest, genesis: seq<Hash>, chains: seq<Node>, c: nat,
      index: map<Hash, (nat, nat)>, log: seq<Hash>, deepest: seq<Node>, n: Node)
    requires TreesOk(pool, f, genesis, chains) && TreesOk(pool, g, genesis, chains) && Joined(f, h, g) && c < |genesis|
    requires h in pool && pool[h].depth > 0 && h !in f.at && pool[h].chain == c && Pending(pool, g, h) == {h}
    requires c < |deepest| == |genesis|
    requires HeadersSet(pool, f.nodes, f.held) && FullAnchored(pool, f.nodes, f.held) && IndexExact(pool, f, index)
    requires CommitsOk(pool, f, log)
    requires EndsOk(pool, f, genesis, deepest) && deepest[c].hash == pool[h].parent
    requires NodeIn(pool, g, genesis[c], h) == n && n in g.kids && g.kids[n] == [] && g.nodes == f.nodes + {n}
    requires !n.isFull && n.header == None && n.timeCommited == 0
    ensures MinedHalf(pool, g, genesis, deepest[c := n], index, log, h, c, n) && FullBlocks(g) == FullBlocks(f)
    ensures g.held == f.held + {h}
  {
    hide TreesOk, Joined, HeadersSet, FullAnchored, IndexExact, CommitsOk, Pending, HeadersBut, EndsOk, NodeIn, Ends;
    hide FullBlocks, Unindexed, NodesOk, NewNodes;
    TwoNew(f, g, n, n);
    MinedRecords(pool, f, h, g, genesis, chains, c, index, log, n);
    MinedEnds(pool, f, h, g, genesis, chains, c, deepest, n);
  }

  /** A block is to be fetched exactly if it is found in its main tree and is not full. */
  lemma Fetchable(pool: Pool, f: Forest, genesis: seq<Hash>, chains: seq<Node>, c: nat, h: Hash)
    requires TreesOk(pool, f, genesis, chains) && c < |genesis|
    ensures var n := NodeIn(pool, f, genesis[c], h);
      (n != null && !n.isFull) <==> (ToFetch(pool, f, h) && h in pool && pool[h].chain == c)
    ensures var n := NodeIn(pool, f, genesis[c], h); n != null ==> h in f.at && f.at[h] == n && n in f.nodes
  {
    TreeFacts(pool, f, genesis, chains, c);
    NodeInFacts(pool, f, genesis[c], h);
    if h in f.at {
      assert h in pool && f.at[h] in f.nodes;
      RootShape(pool, f.held, h);
    }
    hide TreesOk, ForestOk, AllNeeded, NodesOk, Linked, Root;
  }

  lemma FetchAnchored(pool: Pool, f: Forest, h: Hash)
    requires ToFetch(pool, f, h)
    ensures Anchored(pool, f.held, h)
  {
  }

  lemma MainHeader(pool: Pool, f: Forest, genesis: seq<Hash>, chains: seq<Node>, c: nat, h: Hash)
    requires TreesOk(pool, f, genesis, chains) && c < |genesis| && HeadersSet(pool, f.nodes, f.held)
    requires NodeIn(pool, f, genesis[c], h) != null
    ensures h in pool && NodeIn(pool, f, genesis[c], h).header == Some(pool[h])
  {
    MainKnown(pool, f, genesis, chains, c, h);
    hide TreesOk, ForestOk, NodesOk, NodeIn, Anchored;
    HeaderKnown(pool, f, f.at[h]);
  }

  // ---------- a round of asking for full blocks ----------

  ghost predicate AskedIn(nfb: seq<(Hash, nat)>, h: Hash) {
    exists i :: 0 <= i < |nfb| && nfb[i].0 == h
  }

  /** Only the times of the index entries asked for change. */
  ghost predicate Renewed(was: map<Hash, (nat, nat)>, now: map<Hash, (nat, nat)>, nfb: seq<(Hash, nat)>, time: nat) {
    now.Keys == was.Keys && forall h :: h in was ==> now[h] == (was[h].0, if AskedIn(nfb, h) then time else was[h].1)
  }

  /** The blocks asked for, in ascending order, are entries of the index that were due. */
  ghost predicate Asks(index: map<Hash, (nat, nat)>, nfb: seq<(Hash, nat)>, due: set<Hash>) {
    && (forall i :: 0 <= i < |nfb| ==> nfb[i].0 in index && nfb[i].0 in due && nfb[i].1 == index[nfb[i].0].0)
    && (forall i, j :: 0 <= i < j < |nfb| ==> nfb[i].0 < nfb[j].0)
  }

  lemma AsksMore(index: map<Hash, (nat, nat)>, nfb: seq<(Hash, nat)>, due: set<Hash>, h: Hash,
      now: map<Hash, (nat, nat)>, time: nat)
    requires Asks(index, nfb, due) && Renewed(index, now, nfb, time) && h in index && h in due
    requires forall i :: 0 <= i < |nfb| ==> nfb[i].0 < h
    ensures Asks(index, nfb + [(h, index[h].0)], due) && AskedIn(nfb + [(h, index[h].0)], h)
    ensures Renewed(index, now[h := (index[h].0, time)], nfb + [(h, index[h].0)], time)
    ensures forall x :: AskedIn(nfb, x) ==> AskedIn(nfb + [(h, index[h].0)], x)
  {
    var n := nfb + [(h, index[h].0)];
    assert n[|nfb|].0 == h;
    forall x ensures AskedIn(n, x) <==> AskedIn(nfb, x) || x == h {
      if AskedIn(nfb, x) {
        var i :| 0 <= i < |nfb| && nfb[i].0 == x;
        assert n[i].0 == x;
      }
    }
  }

  lemma {:induction false} SmallestOf(s: set<Hash>) returns (m: Hash)
    requires s != {}
    ensures m in s && forall x :: x in s ==> m <= x
    decreases s
  {
    var x :| x in s;
    m := x;
    if s != {x} {
      assert s - {x} != {};
      var n := SmallestOf(s - {x});
      m := if n < x then n else x;
      assert forall y :: y in s ==> y == x || y in s - {x};
    }
  }

  /** Blocks after all those asked for have not been asked for. */
  lemma NotAskedYet(nfb: seq<(Hash, nat)>, h: Hash)
    requires forall i :: 0 <= i < |nfb| ==> nfb[i].0 < h
    ensures !AskedIn(nfb, h)
  {
  }

  /** What an index entry leads to. */
  lemma Fetched(pool: Pool, f: Forest, genesis: seq<Hash>, chains: seq<Node>, index: map<Hash, (nat, nat)>, h: Hash)
    requires TreesOk(pool, f, genesis, chains) && IndexExact(pool, f, index) && h in index
    ensures var c := index[h].0; c < |genesis| && NodeIn(pool, f, genesis[c], h) != null && !NodeIn(pool, f, genesis[c], h).isFull
  {
    assert ToFetch(pool, f, h);
    FetchNode(pool, f, genesis, chains, h, index);
  }

  /** Entries of the index may change their times. */
  lemma IndexRenewed(pool: Pool, f: Forest, index: map<Hash, (nat, nat)>, nfb: seq<(Hash, nat)>,
      now: map<Hash, (nat, nat)>, time: nat)
    requires IndexExact(pool, f, index) && Renewed(index, now, nfb, time)
    ensures IndexExact(pool, f, now) && |now| == |index|
  {
    hide ToFetch, AskedIn;
    assert forall h :: h in now <==> h in index;
    assert |now| == |now.Keys| && |index| == |index.Keys|;
  }

  ghost function FullNodes(nodes: set<Node>): set<Node>
    reads nodes`isFull
  {
    set n | n in nodes && n.isFull
  }

  /** The index as it follows from the set of full nodes. */
  ghost predicate IndexFor(pool: Pool, f: Forest, full: set<Node>, index: map<Hash, (nat, nat)>) {
    && (forall x :: x in index <==> x in f.at && f.at[x] in f.nodes && Anchored(pool, f.held, x) && f.at[x] !in full)
    && (forall x :: x in index ==> x in pool && index[x].0 == pool[x].chain)
  }

  ghost predicate LogFor(pool: Pool, f: Forest, full: set<Node>, log: seq<Hash>) {
    Distinct(log) && forall h :: h in log ==> h in f.at && f.at[h] in full && !IsGenesis(pool, h)
  }

  ghost predicate MarksFor(pool: Pool, f: Forest, full: set<Node>, log: seq<Hash>)
    reads f.nodes`timeCommited
  {
    && (forall n :: n in full ==> n in f.nodes && Anchored(pool, f.held, n.hash) && IsCommitted(pool, log, n))
    && (forall n :: n in f.nodes && IsGenesis(pool, n.hash) ==> n in full)
  }

  lemma RecordsNow(pool: Pool, f: Forest, index: map<Hash, (nat, nat)>, log: seq<Hash>)
    ensures IndexFor(pool, f, FullNodes(f.nodes), index) <==> IndexExact(pool, f, index)
    ensures LogFor(pool, f, FullNodes(f.nodes), log) && MarksFor(pool, f, FullNodes(f.nodes), log)
        <==> FullAnchored(pool, f.nodes, f.held) && CommitsOk(pool, f, log)
  {
    hide Anchored, IsGenesis, Distinct;
  }

  lemma IndexForMore(pool: Pool, f: Forest, full: set<Node>, index: map<Hash, (nat, nat)>, h: Hash)
    requires NodesOk(pool, f) && IndexFor(pool, f, full, index) && h in index
    ensures h in f.at && IndexFor(pool, f, full + {f.at[h]}, index - {h})
  {
    OthersDiffer(pool, f, h);
    hide NodesOk, Anchored;
  }

  lemma LogForMore(pool: Pool, f: Forest, full: set<Node>, log: seq<Hash>, n: Node)
    requires LogFor(pool, f, full, log)
    ensures LogFor(pool, f, full + {n}, log)
  {
  }

  lemma MarksForMore(pool: Pool, f: Forest, full: set<Node>, index: map<Hash, (nat, nat)>, log: seq<Hash>, h: Hash)
    requires NodesOk(pool, f) && LogFor(pool, f, full, log) && MarksFor(pool, f, full, log)
    requires IndexFor(pool, f, full, index)
    requires h in index && h in f.at && f.at[h] in f.nodes && f.at[h].timeCommited == 0
    ensures MarksFor(pool, f, full + {f.at[h]}, log)
  {
    hide NodesOk, Anchored, IndexFor, LogFor, IsGenesis;
    IndexedNode(pool, f, full, index, h);
    NotLogged(pool, f, full, log, h);
    assert IsCommitted(pool, log, f.at[h]);
    hide IsCommitted;
  }

  lemma NotLogged(pool: Pool, f: Forest, full: set<Node>, log: seq<Hash>, h: Hash)
    requires LogFor(pool, f, full, log) && h in f.at && f.at[h] !in full
    ensures h !in log
  {
  }

  lemma IndexedNode(pool: Pool, f: Forest, full: set<Node>, index: map<Hash, (nat, nat)>, h: Hash)
    requires NodesOk(pool, f) && IndexFor(pool, f, full, index) && h in index
    ensures h in f.at && f.at[h].hash == h && f.at[h] !in full && Anchored(pool, f.held, h)
  {
  }

  lemma FullBlocksOf(pool: Pool, f: Forest, full: set<Node>, h: Hash)
    requires NodesOk(pool, f) && h in f.at && FullNodes(f.nodes) == full + {f.at[h]}
    ensures FullBlocks(f) == HashesOf(f, full) + {h}
  {
    OthersDiffer(pool, f, h);
    hide NodesOk;
    forall x | x in f.at && f.at[x] in f.nodes ensures f.at[x].isFull <==> f.at[x] in full || x == h {
      assert f.at[x] in FullNodes(f.nodes) <==> f.at[x] in full + {f.at[h]};
    }
  }

  lemma LessOne(m: map<Hash, (nat, nat)>, h: Hash)
    requires h in m
    ensures |m - {h}| + 1 == |m|
  {
    assert (m - {h}).Keys == m.Keys - {h};
    assert |m.Keys - {h}| == |m.Keys| - 1;
  }

  ghost function HashesOf(f: Forest, full: set<Node>): set<Hash> {
    set x | x in f.at && f.at[x] in f.nodes && f.at[x] in full
  }

  lemma FullBlocksNow(f: Forest)
    ensures FullBlocks(f) == HashesOf(f, FullNodes(f.nodes))
  {
  }

  lemma OthersDiffer(pool: Pool, f: Forest, h: Hash)
    requires NodesOk(pool, f) && h in f.at
    ensures forall x :: x in f.at && x != h ==> f.at[x] != f.at[h]
    ensures forall n :: n in f.nodes && n != f.at[h] ==> n.hash != h && n.hash in f.at && f.at[n.hash] == n
    ensures f.at[h].hash == h && f.at[h] in f.nodes
  {
  }
}
