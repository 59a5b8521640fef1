/**
 * The block store of a node: its trees, orphan lists, deepest blocks, fetch index and commit records, and the
 * operations that change them in place.
 */
module BlockStore {
  import opened Prelude
  import opened Headers
  import opened Holdings
  import opened SearchTrees
  import opened BlockForest
  import opened BlockLinks
  import opened BlockIndex
  import opened BlockJoins
  import opened BlockSteps
  import opened BlockPaths
  import opened BlockDrops
  import opened BlockStart
  import opened RankOrder
  import opened Protocol

  /** Searches the tree rooted at r. */
  method FindInTree(top: Node, h: Hash, ghost r: Hash, ghost pool: Pool, ghost f: Forest) returns (n: Node?)
    requires ForestOk(pool, f) && LinksOk(pool, f) && r in f.shape && top == Top(f.shape[r])
    ensures n == NodeIn(pool, f, r, h)
  {
    hide ForestOk, LinksOk, Top, Spells, Nodes, Lookup, NodeIn;
    FoundIn(pool, f, r, h);
    LinkedTree(pool, f, r);
    n := FindBlockByHash(top, h, f.shape[r], f.nodes);
  }

  /** Gives the node of a block that has just joined its header. */
  method StoreHeader(n: Node, nb: Header, ghost pool: Pool, ghost g: Forest, ghost h: Hash)
    requires NodesOk(pool, g) && HeadersBut(pool, g.nodes, g.held, h) && h in g.held && h in pool && h in g.at
    requires g.at[h] == n && nb == pool[h]
    modifies n`header
    ensures HeadersSet(pool, g.nodes, g.held)
  {
    assert n.hash == h;
    n.header := Some(nb);
    assert HeadersBut(pool, g.nodes, g.held, h);
  }

  /** Sets the full flag of a main-tree block that was not full. */
  method SetFullFlag(n: Node, ghost pool: Pool, ghost f: Forest, ghost h: Hash, ghost index: map<Hash, (nat, nat)>,
      ghost log: seq<Hash>)
    requires NodesOk(pool, f) && h in index && h in f.at && f.at[h] == n && n in f.nodes && n.timeCommited == 0
    requires IndexExact(pool, f, index) && FullAnchored(pool, f.nodes, f.held) && CommitsOk(pool, f, log)
    modifies n`isFull
    ensures IndexExact(pool, f, index - {h}) && FullAnchored(pool, f.nodes, f.held) && CommitsOk(pool, f, log)
    ensures FullBlocks(f) == old(FullBlocks(f)) + {h}
  {
    hide NodesOk, IndexExact, FullAnchored, CommitsOk, IndexFor, LogFor, MarksFor, FullBlocks, HashesOf;
    ghost var full := FullNodes(f.nodes);
    RecordsNow(pool, f, index, log);
    IndexForMore(pool, f, full, index, h);
    MarksForMore(pool, f, full, index, log, h);
    LogForMore(pool, f, full, log, n);
    FullBlocksNow(f);
    n.isFull := true;
    assert FullNodes(f.nodes) == full + {n};
    RecordsNow(pool, f, index - {h}, log);
    FullBlocksOf(pool, f, full, h);
  }

  /** Resets the times of a block that is not full. */
  method ResetTimes(n: Node, minedAt: nat, ghost pool: Pool, ghost f: Forest, ghost log: seq<Hash>)
    requires CommitsOk(pool, f, log) && !n.isFull
    modifies n`timeMined, n`timePartial, n`timeCommited
    ensures CommitsOk(pool, f, log) && n.timeCommited == n.timePartial == 0 && n.timeMined == minedAt
  {
    n.timeMined := minedAt;
    n.timeCommited := 0;
    n.timePartial := 0;
    assert forall m :: m in f.nodes && m.isFull ==> old(IsCommitted(pool, log, m));
  }

  method StoreMinedHeader(n: Node, nb: Header, ghost pool: Pool, ghost f: Forest, ghost genesis: seq<Hash>,
      ghost deepest: seq<Node>,
      ghost index: map<Hash, (nat, nat)>, ghost log: seq<Hash>, ghost h: Hash, ghost c: nat)
    requires MinedHalf(pool, f, genesis, deepest, index, log, h, c, n) && h in pool && nb == pool[h]
    modifies n`header
    ensures MinedBut(pool, f, genesis, deepest, index, log, h, c, n)
  {
    hide NodesOk, HeadersBut, FullAnchored, EndsOk, CommitsOk, IndexExact, Unindexed, HeadersSet;
    StoreHeader(n, nb, pool, f, h);
  }

  /** Unlinks the entry of a block from an orphan list. */
  method RemoveOneChain(l: seq<Incomplete>, b: Node, ghost i: nat) returns (l': seq<Incomplete>)
    requires i < |l| && l[i].b == b && forall j :: 0 <= j < i ==> l[j].b != b
    ensures l' == l[..i] + l[i + 1..]
  {
    var k := 0;
    while l[k].b != b
      invariant 0 <= k <= i
      decreases i - k
    {
      k := k + 1;
    }
    l' := l[..k] + l[k + 1..];
  }

  /**
   * `pool` has every header mined in the run, whether or not it has reached this node; `f` says what the pointers
   * spell out, and `log` which blocks went to commit_block.  `inchains` has the orphan list of each chain, `deepest`
   * the end of its longest chain, `nonFull` the chain and last request of each block whose full block is missing.
   */
  class Blockchain {
    ghost const pool: Pool
    ghost const genesis: seq<Hash>
    var chains: seq<Node>
    var inchains: seq<seq<Incomplete>>
    var deepest: seq<Node>
    var nonFull: map<Hash, (nat, nat)>
    var waiting: map<Hash, nat>
    var processedFull: nat
    var totalReceived: nat
    var commitedTotal: nat
    ghost var f: Forest
    ghost var log: seq<Hash>

    /** A node with the genesis blocks of its chains. */
    constructor (ghost pool: Pool, hashes: seq<Hash>)
      requires StartsFrom(pool, hashes)
      ensures this.pool == pool && genesis == hashes && Valid() && fresh(f.nodes)
      ensures View() == NodeState({}, hashes, set h | h in hashes, {})
    {
      this.pool, genesis := pool, hashes;
      chains, inchains, deepest := [], [], [];
      nonFull, waiting := map[], map[];
      processedFull, totalReceived, commitedTotal := 0, 0, 0;
      f, log := NO_FOREST, [];
      new;
      BootstrapAll(hashes);
    }

    method BootstrapAll(hashes: seq<Hash>)
      requires StartsFrom(pool, hashes) && genesis == hashes && chains == deepest == [] && inchains == []
      requires f == NO_FOREST
      requires nonFull == map[] && processedFull == totalReceived == commitedTotal == 0 && log == []
      modifies `f, `chains, `inchains, `deepest
      ensures Valid() && fresh(f.nodes) && View() == NodeState({}, hashes, set h | h in hashes, {})
    {
      hide StartsFrom, Boots, LinksOk, GenesisMarks, TreesOk, AllOrphansListed, HeadersSet, FullAnchored, EndsOk;
      hide IndexExact, CommitsOk;
      hide Ends, FullBlocks, Logged;
      BootsNone(pool, hashes);
      var i := 0;
      while i < |hashes|
        invariant i <= |hashes| && |chains| == |inchains| == i && deepest == chains
        invariant forall c :: 0 <= c < i ==> inchains[c] == []
        invariant Boots(pool, hashes, f, chains) && LinksOk(pool, f) && GenesisMarks(pool, f.nodes) && fresh(f.nodes)
      {
        var n := AddGenesis(i, hashes[i]);
        i := i + 1;
      }
      Booted(pool, hashes, f, chains);
      NoOrphans(pool, f, hashes, inchains);
      FirstView(pool, hashes, f, chains);
    }

    method AddGenesis(i: nat, h: Hash) returns (n: Node)
      requires StartsFrom(pool, genesis) && i < |genesis| && h == genesis[i] && |chains| == i
      requires Boots(pool, genesis, f, chains) && LinksOk(pool, f) && GenesisMarks(pool, f.nodes)
      modifies `f, `chains, `inchains, `deepest
      ensures chains == old(chains) + [n] && inchains == old(inchains) + [[]] && deepest == old(deepest) + [n]
      ensures fresh(f.nodes - old(f.nodes)) && Boots(pool, genesis, f, chains) && LinksOk(pool, f)
      ensures GenesisMarks(pool, f.nodes)
    {
      hide StartsFrom, Boots, LinksOk, ForestOk, NewRoot, IsNewcomer;
      n := new Node(h);
      BootsNewcomer(pool, genesis, f, chains, n);
      NewRootLinks(pool, f, n);
      BootsNext(pool, genesis, f, chains, n);
      NewRootFields(f, n);
      n.header := Some(GenesisHeader(i, h));
      n.isFull, n.timeCommited, n.timePartial := true, 1, 1;
      f := NewRoot(f, n);
      chains, inchains, deepest := chains + [n], inchains + [[]], deepest + [n];
    }

    ghost predicate Trees()
      reads `f, `chains, f.nodes`left, f.nodes`right, f.nodes`parent, f.nodes`child, f.nodes`sibling
    {
      |chains| == |genesis| && TreesOk(pool, f, genesis, chains) && LinksOk(pool, f)
    }

    method FindBlockByHashAndChainId(h: Hash, c: nat) returns (n: Node?)
      requires Trees() && c < |chains|
      ensures c < |genesis| && n == NodeIn(pool, f, genesis[c], h)
    {
      hide TreesOk, ForestOk, LinksOk, Top;
      TreeFacts(pool, f, genesis, chains, c);
      n := FindInTree(chains[c], h, genesis[c], pool, f);
    }

    method HaveFullBlock(c: nat, h: Hash) returns (r: bool)
      requires Trees() && c < |chains|
      ensures c < |genesis| && r == (var n := NodeIn(pool, f, genesis[c], h); n != null && n.isFull)
    {
      var n := FindBlockByHashAndChainId(h, c);
      r := n != null && n.isFull;
    }

    lemma MainFacts(c: nat, b: Node)
      requires Trees() && c < |genesis| && b in f.nodes && Root(pool, f.held, b.hash) == genesis[c]
      ensures b in f.kids && ListSpells(b, f.kids[b]) && (forall k :: k in f.kids[b] ==> k in f.nodes)
      ensures b.hash in pool && b.hash in f.at && f.at[b.hash] == b && Anchored(pool, f.held, b.hash)
      ensures ForestOk(pool, f)
      ensures NodeIn(pool, f, genesis[c], b.hash) == b
    {
      ListAt(f.nodes, f.kids, b);
      hide ListsSpell;
    }

    lemma KidInMain(c: nat, b: Node, k: Node, bound: nat)
      requires Trees() && c < |genesis| && b in f.nodes && Root(pool, f.held, b.hash) == genesis[c]
      requires AllAtMost(pool, bound)
      requires b in f.kids && k in f.kids[b]
      ensures k in f.nodes && Root(pool, f.held, k.hash) == genesis[c]
      ensures Depth(pool, b.hash) < Depth(pool, k.hash) <= bound
    {
      MainFacts(c, b);
      KidBounded(pool, f, b, k, bound);
      KidAnchored(pool, f, b, k);
    }

    /** Puts one block into the fetch index, unless it is there or full. */
    method AddOneToReceivedNonFull(h: Hash, c: nat)
      requires Trees() && c < |chains|
      modifies `nonFull, `totalReceived
      ensures c < |genesis|
      ensures var n := NodeIn(pool, f, genesis[c], h);
        Indexed(old(nonFull), old(totalReceived), nonFull, totalReceived, c, if n != null && n.isFull then {} else {h})
    {
      hide TreesOk, NodeIn;
      var full := HaveFullBlock(c, h);
      if h !in nonFull && !full {
        nonFull := nonFull[h := (c, 0)];
        totalReceived := totalReceived + 1;
      }
      FirstEntry(old(nonFull), old(totalReceived), nonFull, totalReceived, h, c, full);
    }

    /** Puts every block at or below b into the fetch index, unless it is full. */
    method AddSubtreeToReceivedNonFull(b: Node, c: nat, ghost bound: nat)
      requires Trees() && c < |chains| && c < |genesis| && b in f.nodes && Root(pool, f.held, b.hash) == genesis[c]
      requires AllAtMost(pool, bound)
      modifies `nonFull, `totalReceived
      ensures Indexed(old(nonFull), old(totalReceived), nonFull, totalReceived, c, Pending(pool, f, b.hash))
      decreases bound - Depth(pool, b.hash)
    {
      hide TreesOk, LinksOk, ForestOk, Pending, Root, Anchored, AllAtMost, Indexed, Collected, NodeIn, Linked, NodesOk;
      MainFacts(c, b);
      ghost var ks, i := f.kids[b], 0;
      AddOneToReceivedNonFull(b.hash, c);
      CollectedNone(pool, f, b, ks);
      var k := b.child;
      while k != null
        invariant 0 <= i <= |ks| && k == if i < |ks| then ks[i] else null
        invariant Indexed(old(nonFull), old(totalReceived), nonFull, totalReceived, c, Collected(pool, f, b, ks, i))
        decreases |ks| - i
      {
        ghost var was, total := nonFull, totalReceived;
        KidInMain(c, b, k, bound);
        AddSubtreeToReceivedNonFull(k, c, bound);
        MoreEntries(old(nonFull), old(totalReceived), was, total, nonFull, totalReceived, c,
            Collected(pool, f, b, ks, i), Pending(pool, f, k.hash));
        CollectedNext(pool, f, b, ks, i);
        k := k.sibling;
        i := i + 1;
      }
      CollectedAll(pool, f, b, ks);
    }

    ghost predicate Orphans()
      reads `f, `inchains
    {
      |inchains| == |genesis| && AllOrphansListed(pool, f, genesis, inchains)
    }

    /** The orphan tree waiting for block h joins the main tree, under node p. */
    method ConnectTree(c: nat, ghost h: Hash, i: nat, p: Node, ghost bound: nat)
      requires Trees() && Orphans() && c < |chains| && c < |genesis| && c < |inchains| && i < |inchains[c]|
      requires inchains[c][i].b.hash == h
      requires h in pool && pool[h].depth > 0 && p == NodeIn(pool, f, genesis[c], pool[h].parent)
      requires AllAtMost(pool, bound)
      modifies `chains, `inchains, `f, `nonFull, `totalReceived
      modifies f.nodes`left, f.nodes`right, f.nodes`parent, f.nodes`child, f.nodes`sibling
      ensures Trees() && Orphans() && Joined(old(f), h, f) && f.nodes == old(f.nodes) && chains == old(chains)
      ensures NodeIn(pool, f, genesis[c], h) != null && OtherListsSame(old(inchains), inchains, c)
      ensures Indexed(old(nonFull), old(totalReceived), nonFull, totalReceived, c, Pending(pool, f, h))
    {
      hide TreesOk, ForestOk, AllNeeded, LinksOk, NodesOk, CanHang, Hang, OrphansListed, AllOrphansListed, Joined;
      hide NodeIn;
      hide Indexed, Pending, Root, AllAtMost, Linked, Top, OrphanRoot;
      ghost var r := genesis[c];
      var child := inchains[c][i].b;
      ConnectTreeReady(pool, f, genesis, chains, inchains, c, i, h, p);
      var top := HangTree(pool, f, h, child, r, p, chains[c]);
      f := Hang(f, h, child, r, p);
      chains := chains[c := top];
      assert chains == old(chains);
      AddSubtreeToReceivedNonFull(child, c, bound);
      var l := RemoveOneChain(inchains[c], child, i);
      inchains := inchains[c := l];
    }

    /** A block nobody waits for becomes a leaf of the tree of its parent; `parent` itself may just have been added. */
    method AddBlockByParentHash(top: Node, ghost r: Hash, parent: Hash, h: Hash) returns (n: Node, top': Node)
      requires TreesBut(pool, f, genesis, chains, parent) && LinksOk(pool, f) && h !in f.at && r in f.shape
      requires top == Top(f.shape[r])
      requires h in pool && pool[h].depth > 0 && pool[h].parent == parent && NodeIn(pool, f, r, parent) != null
      modifies `f
      modifies f.nodes`left, f.nodes`right, f.nodes`parent, f.nodes`child, f.nodes`sibling
      ensures TreesOk(pool, f, genesis, chains) && LinksOk(pool, f)
      ensures Joined(old(f), h, f) && f.nodes == old(f.nodes) + {n} && f.shape.Keys == old(f.shape.Keys) && top' == top
      ensures fresh(n) && n.hash == h && n.header == None && !n.isFull && n.timeCommited == 0
      ensures NodeIn(pool, f, r, h) == n
      ensures n in f.kids && f.kids[n] == []
    {
      hide TreesOk, TreesBut, ForestOk, LinksOk, NodesOk, Linked, AllNeeded, CanGrow, Grow, Joined, NodeIn, Root, Top;
      PartsBut(pool, f, genesis, chains, parent);
      var p := FindInTree(top, parent, r, pool, f);
      GrowPossible(pool, f, h, r, p);
      n, top' := AddLeaf(pool, f, h, r, p, top);
      GrownTrees(pool, f, genesis, chains, n, r, p);
      f := Grow(f, n, r, p);
    }

    /** A block nobody waits for becomes a leaf of the main tree. */
    method ConnectLeaf(c: nat, parent: Hash, h: Hash) returns (n: Node)
      requires Trees() && Orphans() && c < |chains| && c < |genesis| && h !in f.at
      requires h in pool && pool[h].depth > 0 && pool[h].parent == parent && NodeIn(pool, f, genesis[c], parent) != null
      modifies `chains, `f
      modifies f.nodes`left, f.nodes`right, f.nodes`parent, f.nodes`child, f.nodes`sibling
      ensures Trees() && Orphans() && Joined(old(f), h, f) && f.nodes == old(f.nodes) + {n} && chains == old(chains)
      ensures fresh(n) && n.hash == h && n.header == None && !n.isFull && n.timeCommited == 0
      ensures Pending(pool, f, h) == {h}
      ensures NodeIn(pool, f, genesis[c], h) == n && n in f.kids && f.kids[n] == []
    {
      hide TreesOk, TreesBut, ForestOk, LinksOk, OrphansListed, AllOrphansListed, Joined, NodeIn, Pending, Linked, Top;
      ghost var was := f;
      LeafReady(pool, f, genesis, chains, c, parent);
      var top;
      n, top := AddBlockByParentHash(chains[c], genesis[c], parent, h);
      TreesForest(pool, f, genesis, chains);
      chains := chains[c := top];
      assert chains == old(chains);
      OrphansKept(pool, was, f, genesis, inchains);
      LeafPending(pool, f, genesis, chains, c, n);
    }

    /** The entry of the orphan list that waits for block h; the length of the list if there is none. */
    method IsIncompleteHash(l: seq<Incomplete>, h: Hash) returns (i: nat)
      ensures i <= |l| && (i < |l| ==> l[i].b.hash == h) && (i == |l| ==> !Listed(l, h))
    {
      i := 0;
      while i < |l| && l[i].b.hash != h
        invariant i <= |l| && forall j :: 0 <= j < i ==> l[j].b.hash != h
      {
        i := i + 1;
      }
    }

    /** A block whose parent is in the main tree joins it, with everything that waited for it. */
    method LinkIntoMain(c: nat, parent: Hash, h: Hash, ghost bound: nat)
      requires Trees() && Orphans() && c < |chains| && c < |genesis| && c < |inchains|
      requires NodeIn(pool, f, genesis[c], h) == null
      requires h in pool && pool[h].depth > 0 && pool[h].chain == c && pool[h].parent == parent
      requires NodeIn(pool, f, genesis[c], parent) != null
      requires AllAtMost(pool, bound)
      modifies `chains, `inchains, `f, `nonFull, `totalReceived
      modifies f.nodes`left, f.nodes`right, f.nodes`parent, f.nodes`child, f.nodes`sibling
      ensures Trees() && Orphans() && Joined(old(f), h, f) && NewNodes(old(f), f) && fresh(f.nodes - old(f.nodes))
      ensures chains == old(chains)
      ensures NodeIn(pool, f, genesis[c], h) != null && OtherListsSame(old(inchains), inchains, c)
      ensures Indexed(old(nonFull), old(totalReceived), nonFull, totalReceived, c, Pending(pool, f, h))
    {
      hide TreesOk, LinksOk, AllOrphansListed, Joined, NodeIn, Indexed, Pending, AllAtMost;
      var i := IsIncompleteHash(inchains[c], h);
      MissingUnlessListed(pool, f, genesis, chains, inchains, c, h);
      if i < |inchains[c]| {
        var p := FindBlockByHashAndChainId(parent, c);
        ConnectTree(c, h, i, p, bound);
      } else {
        var n := ConnectLeaf(c, parent, h);
        AddOneToReceivedNonFull(h, c);
      }
    }

    // ---------- orphans ----------

    /** Looks for the two blocks of a parent link in the orphan list; the length of the list stands for not found. */
    method FindTrees(c: nat, parent: Hash, h: Hash) returns (ch: nat, ph: nat)
      requires Trees() && Orphans() && c < |genesis| && c < |inchains|
      ensures ch <= |inchains[c]| && ph <= |inchains[c]|
      ensures if ch < |inchains[c]| then NodeIn(pool, f, inchains[c][ch].b.hash, h) != null else !InSome(pool, f, inchains[c], h)
      ensures if ph < |inchains[c]| then NodeIn(pool, f, inchains[c][ph].b.hash, parent) != null else !InSome(pool, f, inchains[c], parent)
    {
      hide TreesOk, ForestOk, LinksOk, AllOrphansListed, NodeIn, Top;
      var l := inchains[c];
      ch, ph := |l|, |l|;
      var i := 0;
      TreesForest(pool, f, genesis, chains);
      while i < |l|
        invariant i <= |l| && ch <= |l| && ph <= |l|
        invariant if ch < |l| then NodeIn(pool, f, l[ch].b.hash, h) != null
                  else forall j :: 0 <= j < i ==> NodeIn(pool, f, l[j].b.hash, h) == null
        invariant if ph < |l| then NodeIn(pool, f, l[ph].b.hash, parent) != null
                  else forall j :: 0 <= j < i ==> NodeIn(pool, f, l[j].b.hash, parent) == null
      {
        OrphanTop(pool, f, genesis, inchains, c, i);
        if ch == |l| {
          var n := FindInTree(l[i].b, h, l[i].b.hash, pool, f);
          if n != null { ch := i; }
        }
        if ph == |l| {
          var p := FindInTree(l[i].b, parent, l[i].b.hash, pool, f);
          if p != null { ph := i; }
        }
        i := i + 1;
      }
    }

    /** A node for the missing parent of block h, in a tree of its own. */
    method BootstrapChain(c: nat, parent: Hash, ghost h: Hash) returns (bl: Node)
      requires Trees() && c < |genesis| && parent !in f.at
      requires h in pool && pool[h].depth > 0 && pool[h].chain == c && pool[h].parent == parent
      modifies `f
      ensures fresh(bl) && bl.hash == parent && bl.header == None && !bl.isFull && bl.timeCommited == 0
      ensures f == NewRoot(old(f), bl) && TreesBut(pool, f, genesis, chains, parent) && LinksOk(pool, f)
      ensures f.nodes == old(f.nodes) + {bl} && f.shape.Keys == old(f.shape.Keys) + {parent}
      ensures Top(f.shape[parent]) == bl
      ensures NodeIn(pool, f, parent, parent) == bl && parent != h && parent in pool && pool[parent].chain == c
      ensures pool[parent].depth > 0
      ensures h in f.at <==> h in old(f.at)
    {
      hide TreesOk, TreesBut, ForestOk, LinksOk, Joined, NodeIn, Top, NewRoot, IsNewcomer;
      bl := new Node(parent);
      RootReady(pool, f, genesis, chains, c, h, bl);
      NewRootLinks(pool, f, bl);
      f := NewRoot(f, bl);
    }

    /** A tree of two nodes: the missing parent and the block that waits for it. */
    method StartOrphanTree(c: nat, parent: Hash, h: Hash) returns (bl: Node)
      requires Trees() && Orphans() && c < |genesis| && c < |inchains| && h !in f.at && parent !in f.at
      requires h in pool && pool[h].depth > 0 && pool[h].chain == c && pool[h].parent == parent
      modifies `inchains, `f
      modifies f.nodes`left, f.nodes`right, f.nodes`parent, f.nodes`child, f.nodes`sibling
      ensures Trees() && Orphans() && Joined(old(f), h, f) && NewNodes(old(f), f) && fresh(f.nodes - old(f.nodes))
      ensures bl.hash == parent
      ensures inchains == ListUpdated(old(inchains), c, old(ListOf(inchains, c)) + [Incomplete(bl, 0, 0)])
    {
      hide ForestOk, TreesOk, TreesBut, LinksOk, AllOrphansListed, Joined, NodeIn, Top, NewRoot, NewNodes;
      ghost var was := f;
      bl := BootstrapChain(c, parent, h);
      var n, top := AddBlockByParentHash(bl, parent, parent, h);
      TreesForest(pool, f, genesis, chains);
      JoinedThrough(was, bl, h, f);
      TwoNew(was, f, bl, n);
      StartedOrphan(pool, was, f, genesis, inchains, c, bl);
      inchains := inchains[c := inchains[c] + [Incomplete(top, 0, 0)]];
    }

    /** The block becomes a leaf of the orphan tree that has its parent. */
    method LeafOfOrphan(c: nat, ph: nat, parent: Hash, h: Hash)
      requires Trees() && Orphans() && c < |genesis| && c < |inchains| && ph < |inchains[c]| && h !in f.at
      requires h in pool && pool[h].depth > 0 && pool[h].parent == parent
      requires NodeIn(pool, f, inchains[c][ph].b.hash, parent) != null
      modifies `inchains, `f
      modifies f.nodes`left, f.nodes`right, f.nodes`parent, f.nodes`child, f.nodes`sibling
      ensures Trees() && Orphans() && Joined(old(f), h, f) && NewNodes(old(f), f) && fresh(f.nodes - old(f.nodes))
      ensures inchains == old(inchains)
    {
      hide TreesOk, TreesBut, ForestOk, LinksOk, AllOrphansListed, Joined, NodeIn, Top, NewNodes;
      ghost var was := f;
      var e := inchains[c][ph];
      TreesForest(pool, f, genesis, chains);
      OrphanTop(pool, f, genesis, inchains, c, ph);
      OkBut(pool, f, genesis, chains, parent);
      var n, top := AddBlockByParentHash(e.b, e.b.hash, parent, h);
      TreesForest(pool, f, genesis, chains);
      TwoNew(was, f, n, n);
      OrphansKept(pool, was, f, genesis, inchains);
      SameEntry(inchains[c], ph, top);
      inchains := inchains[c := inchains[c][ph := e.(b := top)]];
      assert inchains == old(inchains);
    }

    /** The missing parent gets a node above the orphan tree that waits for h; then it is what the tree waits for. */
    method RootAbove(c: nat, ch: nat, parent: Hash, h: Hash) returns (bl: Node)
      requires Trees() && Orphans() && c < |genesis| && c < |inchains| && ch < |inchains[c]|
      requires inchains[c][ch].b.hash == h && parent !in f.at
      requires h in pool && pool[h].depth > 0 && pool[h].chain == c && pool[h].parent == parent
      modifies `inchains, `f
      modifies f.nodes`left, f.nodes`right, f.nodes`parent, f.nodes`child, f.nodes`sibling
      ensures Trees() && Orphans() && Joined(old(f), h, f) && NewNodes(old(f), f) && fresh(f.nodes - old(f.nodes))
      ensures bl.hash == parent
      ensures inchains == ListUpdated(old(inchains), c, EntryReplaced(old(ListOf(inchains, c)), ch, Incomplete(bl, 0, 0)))
    {
      hide TreesOk, TreesBut, ForestOk, NodesOk, LinksOk, AllOrphansListed, Joined, NodeIn, Top, NewRoot, NewNodes;
      hide Hang, CanHang;
      ghost var was := f;
      var b := inchains[c][ch].b;
      TreesForest(pool, f, genesis, chains);
      OrphanTop(pool, f, genesis, inchains, c, ch);
      bl := BootstrapChain(c, parent, h);
      AboveReady(pool, was, genesis, chains, inchains, c, ch, h, bl);
      var top := HangTree(pool, f, h, b, parent, bl, bl);
      f := Hang(f, h, b, parent, bl);
      TreesForest(pool, f, genesis, chains);
      TwoNew(was, f, bl, bl);
      inchains := inchains[c := inchains[c][ch := Incomplete(bl, 0, 0)]];
    }

    /** The orphan tree that waits for h joins the orphan tree that has the parent of h. */
    method MergeOrphans(c: nat, ch: nat, ph: nat, parent: Hash, h: Hash)
      requires Trees() && Orphans() && c < |genesis| && c < |inchains| && ch < |inchains[c]| && ph < |inchains[c]|
      requires inchains[c][ch].b.hash == h && NodeIn(pool, f, inchains[c][ph].b.hash, parent) != null
      requires h in pool && pool[h].depth > 0 && pool[h].chain == c && pool[h].parent == parent
      modifies `inchains, `f
      modifies f.nodes`left, f.nodes`right, f.nodes`parent, f.nodes`child, f.nodes`sibling
      ensures Trees() && Orphans() && Joined(old(f), h, f) && NewNodes(old(f), f) && f.nodes == old(f.nodes)
      ensures inchains == ListUpdated(old(inchains), c, EntryRemoved(old(ListOf(inchains, c)), ch))
    {
      hide TreesOk, ForestOk, LinksOk, AllOrphansListed, Joined, NodeIn, Top, NewNodes, Hang, CanHang, Root;
      ghost var was := f;
      var b, top := inchains[c][ch].b, inchains[c][ph].b;
      TreesForest(pool, f, genesis, chains);
      OrphanTop(pool, f, genesis, inchains, c, ph);
      var p := FindInTree(top, parent, top.hash, pool, f);
      HangTreeReady(pool, f, genesis, chains, inchains, c, ch, h, top.hash, p);
      var top' := HangTree(pool, f, h, b, top.hash, p, top);
      f := Hang(f, h, b, top.hash, p);
      SameNodes(was, f);
      SameEntry(inchains[c], ph, top');
      var l := RemoveOneChain(inchains[c][ph := inchains[c][ph].(b := top')], b, ch);
      inchains := inchains[c := l];
    }

    /** Puts a parent link whose parent is not in the main tree into the orphan trees. */
    method AddBlockToIncomplete(c: nat, parent: Hash, h: Hash)
      requires Trees() && Orphans() && c < |genesis| && c < |inchains| && h !in f.held
      requires h in pool && pool[h].depth > 0 && pool[h].chain == c && pool[h].parent == parent
      requires NodeIn(pool, f, genesis[c], h) == null && NodeIn(pool, f, genesis[c], parent) == null
      modifies `inchains, `f
      modifies f.nodes`left, f.nodes`right, f.nodes`parent, f.nodes`child, f.nodes`sibling
      ensures Trees() && Orphans() && Joined(old(f), h, f) && NewNodes(old(f), f) && fresh(f.nodes - old(f.nodes))
      ensures OtherListsSame(old(inchains), inchains, c)
    {
      hide TreesOk, LinksOk, AllOrphansListed, Joined, NodeIn, NewNodes, InSome, EntryReplaced, EntryRemoved, ListOf;
      Whereabouts(pool, f, genesis, chains, inchains, c, h);
      var ch, ph := FindTrees(c, parent, h);
      if ch < |inchains[c]| {
        UnheldIsRoot(pool, f, inchains[c][ch].b.hash, h);
        if ph < |inchains[c]| {
          MergeOrphans(c, ch, ph, parent, h);
        } else {
          var _ := RootAbove(c, ch, parent, h);
        }
      } else if ph < |inchains[c]| {
        LeafOfOrphan(c, ph, parent, h);
      } else {
        var _ := StartOrphanTree(c, parent, h);
      }
    }

    /** Whether the orphan trees have this parent link already. */
    method IsInIncomplete(c: nat, parent: Hash, h: Hash) returns (r: bool)
      requires Trees() && Orphans() && c < |genesis| && c < |inchains|
      requires h in pool && pool[h].depth > 0 && pool[h].chain == c && pool[h].parent == parent
      requires NodeIn(pool, f, genesis[c], h) == null
      ensures r <==> h in f.held
    {
      hide TreesOk, ForestOk, LinksOk, AllOrphansListed, NodeIn, Top;
      var l := inchains[c];
      var i := 0;
      TreesForest(pool, f, genesis, chains);
      while i < |l|
        invariant i <= |l| && (h in f.held ==> forall j :: 0 <= j < i ==> NodeIn(pool, f, l[j].b.hash, h) == null)
      {
        OrphanTop(pool, f, genesis, inchains, c, i);
        var b := FindInTree(l[i].b, h, l[i].b.hash, pool, f);
        if b != null {
          ParentKnown(pool, f, l[i].b.hash, h);
          if b.parent != null && b.parent.hash == parent {
            return true;
          }
        }
        i := i + 1;
      }
      HeldSomewhere(pool, f, genesis, chains, inchains, c, h);
      r := false;
    }

    method FindIncompleteBlock(c: nat, h: Hash) returns (n: Node?)
      requires Trees() && Orphans() && c < |genesis| && c < |inchains|
      ensures n == if InSome(pool, f, inchains[c], h) && h in f.at then f.at[h] else null
    {
      hide TreesOk, ForestOk, LinksOk, AllOrphansListed, NodeIn, Top;
      var l := inchains[c];
      var i := 0;
      TreesForest(pool, f, genesis, chains);
      while i < |l|
        invariant i <= |l| && forall j :: 0 <= j < i ==> NodeIn(pool, f, l[j].b.hash, h) == null
      {
        OrphanTop(pool, f, genesis, inchains, c, i);
        n := FindInTree(l[i].b, h, l[i].b.hash, pool, f);
        if n != null {
          NodeInAt(pool, f, l[i].b.hash, h);
          return;
        }
        i := i + 1;
      }
      n := null;
    }

    ghost predicate Records()
      reads `f, `deepest, `nonFull, `totalReceived, `processedFull, `commitedTotal, `log
      reads f.nodes`header, f.nodes`isFull, f.nodes`timeCommited
    {
      && HeadersSet(pool, f.nodes, f.held) && FullAnchored(pool, f.nodes, f.held) && EndsOk(pool, f, genesis, deepest)
      && IndexExact(pool, f, nonFull) && totalReceived == |nonFull| + processedFull
      && CommitsOk(pool, f, log) && commitedTotal == |log|
    }

    ghost predicate Valid()
      reads this, f.nodes
    {
      Trees() && Orphans() && Records()
    }

    /** The state of this node in the world of all nodes. */
    ghost function View(): NodeState
      reads `f, `deepest, `log, f.nodes`isFull
    {
      NodeState(f.held, Ends(deepest), FullBlocks(f), Logged(log))
    }

    /** Finds the new end of the chain, once block h has joined the main tree. */
    method UpdateDeepest(c: nat, ghost h: Hash, bz: Node, ghost was: Forest, ghost bound: nat)
      requires Trees() && c < |chains| && h in pool && pool[h].depth > 0 && pool[h].chain == c && h !in was.held
      requires AllAtMost(pool, bound)
      requires TreesOk(pool, was, genesis, chains) && Joined(was, h, f) && NodeIn(pool, f, genesis[c], h) == bz
      requires HeadersSet(pool, f.nodes, f.held) && EndsOk(pool, was, genesis, deepest)
      modifies `deepest
      ensures EndsOk(pool, f, genesis, deepest) && Moved(pool, f.held, h, old(Ends(deepest)), Ends(deepest))
      ensures Anchored(pool, f.held, h)
      ensures c < |deepest| == |old(deepest)| && (deepest[c] == old(deepest)[c] || FirstAsDeep(pool, f, bz, deepest[c].hash))
    {
      hide TreesOk, ForestOk, NodesOk, ListsSpell, Joined, NodeIn, AllAtMost, EndsOk, HeadersSet, Ends, Anchored, Under;
      hide NoneDeeper, Moved, FirstAsDeep;
      MainKnown(pool, f, genesis, chains, c, h);
      EndKnown(pool, was, h, f, genesis, chains, deepest, c);
      var oldDepth := deepest[c].header.value.depth;
      var deepLast := FindMaxDepth(pool, f, bz, bound);
      UnderKnown(pool, f, h, deepLast);
      EndsFollow(pool, was, h, f, genesis, chains, deepest, c, deepLast);
      if deepLast.header.value.depth > oldDepth {
        deepest := deepest[c := deepLast];
      }
    }

    /** Stores the header of a block that has just joined the main tree, and updates the end of its chain. */
    method RecordMain(c: nat, h: Hash, nb: Header, ghost was: Forest, ghost bound: nat)
      requires Trees() && c < |chains| && h in pool && nb == pool[h] && nb.depth > 0 && nb.chain == c && h !in was.held
      requires AllAtMost(pool, bound)
      requires TreesOk(pool, was, genesis, chains) && Joined(was, h, f) && NodeIn(pool, f, genesis[c], h) != null
      requires HeadersBut(pool, f.nodes, f.held, h) && EndsOk(pool, was, genesis, deepest)
      modifies `deepest, f.nodes`header
      ensures HeadersSet(pool, f.nodes, f.held) && EndsOk(pool, f, genesis, deepest)
      ensures Moved(pool, f.held, h, old(Ends(deepest)), Ends(deepest)) && Anchored(pool, f.held, h)
    {
      hide TreesOk, ForestOk, NodesOk, ListsSpell, Joined, NodeIn, AllAtMost, EndsOk, HeadersSet, HeadersBut, Ends;
      hide Anchored, Moved;
      MainKnown(pool, f, genesis, chains, c, h);
      var bz := FindBlockByHashAndChainId(h, c);
      JoinedHeld(was, h, f);
      StoreHeader(bz, nb, pool, f, h);
      UpdateDeepest(c, h, bz, was, bound);
    }

    /** The header of a new block whose parent is in the main tree. */
    method ReceiveIntoMain(c: nat, parent: Hash, h: Hash, nb: Header)
      requires Valid() && c < |chains| && c < |genesis| && NodeIn(pool, f, genesis[c], h) == null
      requires h in pool && nb == pool[h] && nb.depth > 0 && nb.chain == c && nb.parent == parent
      requires NodeIn(pool, f, genesis[c], parent) != null
      modifies this`chains, this`inchains, this`deepest, this`nonFull, this`totalReceived, this`f
      modifies f.nodes`left, f.nodes`right, f.nodes`parent, f.nodes`child, f.nodes`sibling, f.nodes`header
      ensures Valid() && fresh(f.nodes - old(f.nodes)) && Anchored(pool, f.held, h)
      ensures h !in old(f.held) && Receives(pool, old(View()), h, View())
      ensures OtherListsSame(old(inchains), inchains, c) && EntriesKept(old(nonFull), nonFull)
    {
      hide TreesOk, ForestOk, NodesOk, LinksOk, AllOrphansListed, Joined, NodeIn, Indexed, Pending, AllAtMost, EndsOk;
      hide HeadersSet;
      hide FullAnchored, IndexExact, CommitsOk, Receives, Ends, FullBlocks, HeadersBut, NewNodes, Anchored, Moved;
      hide OtherListsSame, EntriesKept;
      ghost var bound := BoundExists(pool);
      ghost var was, index, total := f, nonFull, totalReceived;
      NotHeld(pool, f, genesis, chains, c, h);
      LinkIntoMain(c, parent, h, bound);
      IndexedKeeps(index, total, nonFull, totalReceived, c, Pending(pool, f, h));
      RecordsJoin(pool, was, h, f, genesis, chains, c, index, total, nonFull, totalReceived, log);
      RecordMain(c, h, nb, was, bound);
      JoinedHeld(was, h, f);
      IsReceived(pool, old(View()), h, View());
    }

    /** The header of a new block whose parent is not in the main tree. */
    method ReceiveIntoOrphans(c: nat, parent: Hash, h: Hash, nb: Header)
      requires Valid() && c < |genesis| && c < |inchains| && NodeIn(pool, f, genesis[c], h) == null && h !in f.held
      requires h in pool && nb == pool[h] && nb.depth > 0 && nb.chain == c && nb.parent == parent
      requires NodeIn(pool, f, genesis[c], parent) == null
      modifies this`inchains, this`f
      modifies f.nodes`left, f.nodes`right, f.nodes`parent, f.nodes`child, f.nodes`sibling, f.nodes`header
      ensures Valid() && fresh(f.nodes - old(f.nodes)) && !Anchored(pool, f.held, h)
      ensures Receives(pool, old(View()), h, View()) && OtherListsSame(old(inchains), inchains, c)
    {
      hide TreesOk, ForestOk, NodesOk, LinksOk, AllOrphansListed, Joined, NodeIn, EndsOk, HeadersSet, FullAnchored;
      hide IndexExact, CommitsOk, InSome;
      hide Receives, Ends, FullBlocks, HeadersBut, NewNodes, Anchored, Moved, OtherListsSame;
      ghost var was := f;
      AddBlockToIncomplete(c, parent, h);
      OrphanRecords(pool, was, h, f, genesis, chains, inchains, c, nonFull, log, deepest);
      var bz := FindIncompleteBlock(c, h);
      StoreHeader(bz, nb, pool, f, h);
      IsReceived(pool, old(View()), h, View());
    }

    /**
     * A header arrives.  `added` tells whether it is new, and the result whether its parent has to be asked for.
     * It is new exactly if it was not held; then it is held, in the main tree if its ancestry is, and as an orphan otherwise.
     */
    method AddReceivedBlock(c: nat, parent: Hash, h: Hash, nb: Header) returns (needParent: bool, added: bool)
      requires Valid() && h in pool && nb == pool[h] && c == nb.chain && parent == nb.parent
      modifies this`chains, this`inchains, this`deepest, this`nonFull, this`totalReceived, this`f
      modifies f.nodes`left, f.nodes`right, f.nodes`parent, f.nodes`child, f.nodes`sibling, f.nodes`header
      ensures Valid() && fresh(f.nodes - old(f.nodes))
      ensures Receives(pool, old(View()), h, View())
      ensures added <==> nb.depth > 0 && h !in old(f.held)
      ensures needParent <==> added && !Anchored(pool, f.held, h)
      ensures OtherListsSame(old(inchains), inchains, c) && EntriesKept(old(nonFull), nonFull)
      ensures OnlyDeeper(pool, old(Ends(deepest)), Ends(deepest))
    {
      hide TreesOk, LinksOk, AllOrphansListed, NodeIn, EndsOk, HeadersSet, FullAnchored, IndexExact, CommitsOk;
      hide Ends, FullBlocks, Anchored, DeepestMoves;
      ChainExists(pool, f, genesis, chains, h);
      var n := FindBlockByHashAndChainId(h, c);
      if n != null {
        MainHeld(pool, f, genesis, chains, c, h);
        return false, false;
      }
      NotGenesis(pool, f, genesis, chains, c, h);
      var p := FindBlockByHashAndChainId(parent, c);
      if p != null {
        ReceiveIntoMain(c, parent, h, nb);
        ReceivedOnlyDeeper(pool, old(View()), h, View());
        return false, true;
      }
      var known := IsInIncomplete(c, parent, h);
      if known {
        return false, false;
      }
      ReceiveIntoOrphans(c, parent, h, nb);
      ReceivedOnlyDeeper(pool, old(View()), h, View());
      return true, true;
    }

    // ---------- full blocks ----------

    /** The full block of a main-tree block has been accepted. */
    method SetBlockFull(c: nat, h: Hash)
      requires Valid() && c < |chains| && ToFetch(pool, f, h) && h in pool && pool[h].chain == c
      requires f.at[h].timeCommited == 0
      modifies `nonFull, `waiting, `processedFull, f.nodes`isFull
      ensures Valid() && View() == old(View()).(full := old(View()).full + {h})
      ensures nonFull == old(nonFull) - {h} && waiting == old(waiting) - {h} && processedFull == old(processedFull) + 1
    {
      hide TreesOk, NodesOk, LinksOk, AllOrphansListed, NodeIn, EndsOk, HeadersSet, Ends, FullAnchored, IndexExact;
      hide CommitsOk, Logged, FullBlocks, Anchored, ToFetch;
      ghost var index := nonFull;
      FetchNode(pool, f, genesis, chains, h, nonFull);
      nonFull, waiting := nonFull - {h}, waiting - {h};
      LessOne(index, h);
      var bz := FindBlockByHashAndChainId(h, c);
      if bz != null {
        processedFull := processedFull + 1;
        SetFullFlag(bz, pool, f, h, index, log);
      }
    }

    /**
     * A full-block message for block h.  `txsGood` is the outcome of the checks on its transactions, `proofGood` that of
     * the checks on its hash, chain, Merkle proof and trailing block, which come after the block's times are reset.
     */
    method ReceiveFullBlock(c: nat, h: Hash, minedAt: nat, txsGood: bool, proofGood: bool)
      requires Valid() && c < |chains|
      modifies `nonFull, `waiting, `processedFull, f.nodes`isFull, f.nodes`timeMined, f.nodes`timePartial, f.nodes`timeCommited
      ensures Valid() && log == old(log)
      ensures if old(ToFetch(pool, f, h)) && h in pool && pool[h].chain == c && txsGood && proofGood
              then Fills(pool, old(View()), h, View()) && nonFull == old(nonFull) - {h} && processedFull == old(processedFull) + 1
              else View() == old(View()) && nonFull == old(nonFull) && processedFull == old(processedFull)
      ensures forall n :: n in f.nodes ==>
        var reset := txsGood && old(ToFetch(pool, f, h)) && h in pool && pool[h].chain == c && n == f.at[h];
        && n.timeMined == (if reset then minedAt else old(n.timeMined))
        && n.timePartial == (if reset then 0 else old(n.timePartial))
        && n.timeCommited == if reset then 0 else old(n.timeCommited)
    {
      hide TreesOk, LinksOk, AllOrphansListed, NodeIn, EndsOk, HeadersSet, Ends, FullAnchored, IndexExact, CommitsOk;
      hide FullBlocks, Anchored, ToFetch;
      Fetchable(pool, f, genesis, chains, c, h);
      var have := HaveFullBlock(c, h);
      if have {
        return;
      }
      var b := FindBlockByHashAndChainId(h, c);
      if b == null {
        return;
      }
      MainHeader(pool, f, genesis, chains, c, h);
      FetchAnchored(pool, f, h);
      if b.header == None || !txsGood {
        return;
      }
      StoreFull(c, h, b, minedAt, proofGood);
    }

    /** Resets the times of a block that is not full, and marks it full if the remaining checks pass. */
    method StoreFull(c: nat, h: Hash, b: Node, minedAt: nat, proofGood: bool)
      requires Valid() && c < |chains| && ToFetch(pool, f, h) && h in pool && pool[h].chain == c && Anchored(pool, f.held, h)
      requires f.at[h] == b && b in f.nodes && !b.isFull
      modifies `nonFull, `waiting, `processedFull, f.nodes`isFull, b`timeMined, b`timePartial, b`timeCommited
      ensures Valid() && b.timeMined == minedAt && b.timePartial == b.timeCommited == 0
      ensures if proofGood
              then Fills(pool, old(View()), h, View()) && nonFull == old(nonFull) - {h} && processedFull == old(processedFull) + 1
              else View() == old(View()) && nonFull == old(nonFull) && processedFull == old(processedFull)
    {
      hide TreesOk, LinksOk, AllOrphansListed, NodeIn, EndsOk, HeadersSet, Ends, FullAnchored, IndexExact, CommitsOk;
      hide FullBlocks, Anchored, ToFetch;
      ResetTimes(b, minedAt, pool, f, log);
      if proofGood {
        SetBlockFull(c, h);
      }
    }

    // ---------- mining ----------

    /** The mined block h has joined with node n, and everything but its full flag fits n as the end of chain c. */
    ghost predicate Staged(s: NodeState, ends: seq<Node>, c: nat, h: Hash, n: Node)
      reads this, f.nodes, n`timeCommited
    {
      && Trees() && Orphans() && MinedBut(pool, f, genesis, Replaced(ends, c, n), nonFull, log, h, c, n)
      && FullBlocks(f) == s.full && f.held == s.held + {h} && n.hash == h
    }

    /** Adds the node's own block to the end of its chain. */
    method ExtendEnd(c: nat, parent: Hash, h: Hash, nb: Header) returns (n: Node)
      requires Valid() && c < |chains| && c < |genesis| && c < |deepest| && h !in f.at
      requires h in pool && nb == pool[h] && nb.depth > 0 && nb.chain == c && nb.parent == parent == deepest[c].hash
      modifies this`chains, this`f
      modifies f.nodes`left, f.nodes`right, f.nodes`parent, f.nodes`child, f.nodes`sibling
      ensures fresh(f.nodes - old(f.nodes)) && fresh(n) && Staged(old(View()), old(deepest), c, h, n)
    {
      hide TreesOk, ForestOk, NodesOk, LinksOk, AllOrphansListed, Joined, NodeIn, Indexed, Pending, EndsOk, HeadersSet;
      hide FullAnchored, IndexExact, CommitsOk, Ends, FullBlocks, HeadersBut, NewNodes, Anchored, Logged, MinedBut;
      hide Unindexed;
      hide MinedHalf;
      ghost var was := f;
      EndIsMain(pool, f, genesis, chains, deepest, c);
      n := ConnectLeaf(c, parent, h);
      MinedReady(pool, was, h, f, genesis, chains, c, nonFull, log, deepest, n);
      StoreMinedHeader(n, nb, pool, f, genesis, deepest[c := n], nonFull, log, h, c);
    }

    /** Adds the node's own block, as the new end of its chain. */
    method AddBlockByParentHashAndChainId(c: nat, parent: Hash, h: Hash, nb: Header) returns (n: Node)
      requires Valid() && c < |chains| && c < |genesis| && c < |deepest| && h !in f.at
      requires h in pool && nb == pool[h] && nb.depth > 0 && nb.chain == c && nb.parent == parent == deepest[c].hash
      modifies this`chains, this`deepest, this`f
      modifies f.nodes`left, f.nodes`right, f.nodes`parent, f.nodes`child, f.nodes`sibling
      ensures fresh(f.nodes - old(f.nodes)) && fresh(n) && Staged(old(View()), old(deepest), c, h, n)
      ensures deepest == Replaced(old(deepest), c, n)
    {
      hide TreesOk, LinksOk, AllOrphansListed, FullBlocks, MinedBut;
      n := ExtendEnd(c, parent, h, nb);
      deepest := deepest[c := n];
    }

    /** The node's own new block extends the longest chain of c and is full at once. */
    method AddMinedBlock(c: nat, parent: Hash, h: Hash, nb: Header, minedAt: nat) returns (n: Node)
      requires c < |chains| && c < |genesis| && c < |deepest| && h !in f.at && nb.parent == parent == deepest[c].hash
      requires h in pool && nb == pool[h] && nb.depth > 0 && nb.chain == c && Valid()
      modifies this`chains, this`deepest, this`f
      modifies f.nodes`left, f.nodes`right, f.nodes`parent, f.nodes`child, f.nodes`sibling
      ensures fresh(n) && n.hash == h && n.timeMined == minedAt && n.timeCommited == 0
      ensures fresh(f.nodes - old(f.nodes)) && n in f.nodes && Mines(old(View()), h, c, View()) && Valid()
    {
      hide TreesOk, ForestOk, NodesOk, LinksOk, AllOrphansListed, EndsOk, HeadersSet, FullAnchored, IndexExact;
      hide CommitsOk, Ends, FullBlocks, Logged;
      n := AddBlockByParentHashAndChainId(c, parent, h, nb);
      MarkMined(c, h, n, minedAt, old(View()), old(deepest));
    }

    /** Sets the mining time and the full flag of the node's own new block. */
    method MarkMined(c: nat, h: Hash, n: Node, minedAt: nat, ghost s: NodeState, ghost ends: seq<Node>)
      requires Staged(s, ends, c, h, n) && deepest == Replaced(ends, c, n) && c < |ends|
      requires s.deepest == Ends(ends) && s.committed == Logged(log) && commitedTotal == |log| && h !in nonFull
      requires totalReceived == |nonFull| + processedFull
      modifies n`timeMined, n`isFull
      ensures n.timeMined == minedAt && n.timeCommited == 0 && n.hash == h && n in f.nodes && Mines(s, h, c, View()) && Valid()
    {
      hide TreesOk, ForestOk, NodesOk, LinksOk, AllOrphansListed, EndsOk, HeadersSet, FullAnchored, IndexExact;
      hide CommitsOk, Ends, FullBlocks, Logged;
      n.timeMined := minedAt;
      SetFullFlag(n, pool, f, h, nonFull[h := (c, 0)], log);
      MinedView(ends, n, c);
    }

    // ---------- the commit pass ----------

    ghost predicate CommitState()
      reads `f, `log, `commitedTotal, f.nodes`header, f.nodes`isFull, f.nodes`timeCommited
    {
      NodesOk(pool, f) && HeadersSet(pool, f.nodes, f.held) && FullAnchored(pool, f.nodes, f.held)
        && CommitsOk(pool, f, log) && commitedTotal == |log|
    }

    /** Visits one block of a partial chain. */
    method Visit(n: Node, bar: nat, now: nat, ghost times: map<Node, nat>, ghost start: seq<Hash>)
      requires CommitState() && OnMain(pool, f, n) && start <= log && Stamped(f, times, TimesOf(f), start, log, now)
      modifies `log, `commitedTotal, n`timeCommited
      ensures CommitState() && old(log) <= log && log == HandedOver(pool, f, n.hash, bar, now, old(log))
      ensures Logged(log) == old(Logged(log)) + if Committable(pool, f, n.hash, bar, now) then {n.hash} else {}
      ensures Stamped(f, times, TimesOf(f), start, log, now)
    {
      hide Stamped, NodesOk, HeadersSet, FullAnchored, CommitsOk, Logged, OnMain, IsGenesis;
      MainLabel(pool, f, n);
      OnMainIn(pool, f, n);
      if n.isFull { CommitMark(pool, f, log, n); }
      LoggedMore(log, n.hash);
      if n.isFull && n.header.Some? && n.header.value.nextRank < bar && n.timeCommited == 0 && now > n.timeMined {
        CommitOne(n, now, pool, f, log);
        log := log + [n.hash];
        commitedTotal := commitedTotal + 1;
        assert TimesOf(f) == old(TimesOf(f))[n := now];
      }
      StampedMore(pool, f, times, old(TimesOf(f)), TimesOf(f), start, old(log), log, n, now);
    }

    /** Walks from r up to the genesis block. */
    method CommitPath(r: Node, bar: nat, now: nat)
      requires Trees() && CommitState() && OnMain(pool, f, r)
      modifies `log, `commitedTotal, f.nodes`timeCommited
      ensures CommitState() && old(log) <= log
      ensures Logged(log) == old(Logged(log)) + ToCommit(pool, f, Path(pool, r.hash), bar, now)
      ensures log == CommitWalk(pool, f, Path(pool, r.hash), bar, now, old(log))
      ensures Stamped(f, old(TimesOf(f)), TimesOf(f), old(log), log, now)
    {
      hide Stamped, TimesOf;
      StampedFirst(f, log, now);
      hide CommitWalk, HandedOver, TreesOk, ForestOk, Path, ToCommit, Committable, Logged, OnMain, NodesOk, HeadersSet;
      hide FullAnchored, CommitsOk, SearchesSpell, ListsSpell, ParentsSpell, RootsAlone;
      TreesForest(pool, f, genesis, chains);
      ghost var p, k := Path(pool, r.hash), 0;
      var n: Node? := r;
      ToCommitNone(pool, f, p, bar, now);
      CommitWalkNone(pool, f, p, bar, now, log);
      while n != null
        invariant WalkedTo(pool, f, r, k, n) && old(log) <= log && CommitState() && Trees() && k <= |p|
        invariant CommitWalk(pool, f, p[..|p| - k], bar, now, log) == CommitWalk(pool, f, p, bar, now, old(log))
        invariant Logged(log) == old(Logged(log)) + ToCommit(pool, f, p[|p| - k..], bar, now)
        invariant Stamped(f, old(TimesOf(f)), TimesOf(f), old(log), log, now)
        decreases |p| - k
      {
        WalkOn(pool, f, r, k, n);
        WalkedHash(pool, f, r, k, n);
        ToCommitMore(pool, f, p, |p| - k - 1, bar, now);
        CommitWalkStep(pool, f, p, |p| - k - 1, bar, now, log);
        Visit(n, bar, now, old(TimesOf(f)), old(log));
        n := n.parent;
        k := k + 1;
      }
      CommitWalkNone(pool, f, p, bar, now, log);
    }

    /** The smallest next rank where a partial chain ends; `stop` if a chain is too short to have a partial chain. */
    method FindConfirmBar(t: nat) returns (bar: nat, stop: bool)
      requires Trees() && HeadersSet(pool, f.nodes, f.held) && EndsOk(pool, f, genesis, deepest)
      ensures stop <==> !Deep(pool, Ends(deepest), t)
      ensures !stop ==> bar == Bar(pool, Ends(deepest), t)
    {
      hide TreesOk, ForestOk, SearchesSpell, ListsSpell, RootsAlone, HeadersSet, EndsOk, Ends, Partial, Bar, EndRank;
      hide OnMain, NextRank, NodesOk;
      TreesForest(pool, f, genesis, chains);
      ghost var tips := Ends(deepest);
      EndsLength(deepest);
      BarNone(pool, tips, t);
      bar := 0xFFFF_FFFF;
      var i := 0;
      while i < |deepest|
        invariant i <= |deepest| == |tips| && bar == Bar(pool, tips[..i], t)
        invariant forall c :: 0 <= c < i ==> Partial(pool, tips[c], t) != []
      {
        EndOnMain(pool, f, genesis, deepest, i);
        var n := Discard(pool, f, deepest[i], t);
        if n == null {
          return bar, true;
        }
        MainLabel(pool, f, n);
        EndOfPath(pool, f, deepest[i], t, n);
        BarNext(pool, tips, t, i);
        if n.header.value.nextRank < bar {
          bar := n.header.value.nextRank;
        }
        i := i + 1;
      }
      assert tips[..i] == tips;
      stop := false;
    }

    /** Commits what the bar allows on one chain. */
    method CommitChain(i: nat, t: nat, bar: nat, now: nat)
      requires Trees() && CommitState() && EndsOk(pool, f, genesis, deepest) && i < |deepest|
      modifies `log, `commitedTotal, f.nodes`timeCommited
      ensures CommitState() && old(log) <= log
      ensures Logged(log) == old(Logged(log)) + ToCommit(pool, f, Partial(pool, deepest[i].hash, t), bar, now)
      ensures log == CommitWalk(pool, f, Partial(pool, deepest[i].hash, t), bar, now, old(log))
      ensures Stamped(f, old(TimesOf(f)), TimesOf(f), old(log), log, now)
    {
      hide CommitWalk, TreesOk, ForestOk, SearchesSpell, ListsSpell, ParentsSpell, RootsAlone, EndsOk, Partial;
      hide OnMain, Logged, ToCommit, CommitsOk, NodesOk, HeadersSet, FullAnchored, Stamped, TimesOf;
      TreesForest(pool, f, genesis, chains);
      EndOnMain(pool, f, genesis, deepest, i);
      var n := Discard(pool, f, deepest[i], t);
      if n == null {
        NothingToCommit(pool, f, bar, now);
        CommitWalkNone(pool, f, [], bar, now, log);
        StampedFirst(f, log, now);
      } else {
        CommitPath(n, bar, now);
      }
    }

    /** Commits what the bar allows, chain by chain and tip to root. */
    method CommitBelow(t: nat, bar: nat, now: nat)
      requires Trees() && CommitState() && EndsOk(pool, f, genesis, deepest)
      modifies `log, `commitedTotal, f.nodes`timeCommited
      ensures CommitState() && old(log) <= log && |Ends(deepest)| == |deepest|
      ensures Logged(log) == old(Logged(log)) + ToCommitUpTo(pool, f, Ends(deepest), t, |deepest|, bar, now)
      ensures log == CommitChains(pool, f, Ends(deepest), t, |deepest|, bar, now, old(log))
      ensures Stamped(f, old(TimesOf(f)), TimesOf(f), old(log), log, now)
    {
      hide Stamped, TimesOf;
      StampedFirst(f, log, now);
      hide CommitWalk, TreesOk, ForestOk, SearchesSpell, ListsSpell, ParentsSpell, RootsAlone, EndsOk, Ends, Partial;
      hide OnMain, Logged, ToCommitUpTo, ToCommit, CommitsOk;
      hide NodesOk, HeadersSet, FullAnchored;
      TreesForest(pool, f, genesis, chains);
      ghost var tips := Ends(deepest);
      EndsLength(deepest);
      UpToNone(pool, f, tips, t, bar, now);
      var i := 0;
      while i < |deepest|
        invariant i <= |deepest| == |tips| && old(log) <= log && CommitState() && Trees()
        invariant log == CommitChains(pool, f, tips, t, i, bar, now, old(log))
        invariant Logged(log) == old(Logged(log)) + ToCommitUpTo(pool, f, tips, t, i, bar, now)
        invariant Stamped(f, old(TimesOf(f)), TimesOf(f), old(log), log, now)
      {
        EndOnMain(pool, f, genesis, deepest, i);
        UpToNext(pool, f, tips, t, i, bar, now);
        ghost var times, soFar := TimesOf(f), log;
        CommitChain(i, t, bar, now);
        StampedOn(f, old(TimesOf(f)), times, TimesOf(f), old(log), soFar, log, now);
        i := i + 1;
      }
    }

    /** One commit pass, for one discard depth t at local time `now`. */
    method UpdateBlocksCommitedTime(t: nat, now: nat)
      requires Valid()
      modifies `log, `commitedTotal, f.nodes`timeCommited
      ensures old(log) <= log && log == PassLog(pool, f, Ends(deepest), t, now, old(log))
      ensures Valid() && Commits(pool, old(View()), t, old(Late(f, now)), View())
      ensures forall h :: h in log <==> h in old(log) || (Deep(pool, Ends(deepest), t) && IsCommitTime(pool, f, Ends(deepest), t, now, h))
      ensures Stamped(f, old(TimesOf(f)), TimesOf(f), old(log), log, now)
    {
      hide IsCommitTime, Stamped, TimesOf;
      StampedFirst(f, log, now);
      hide ForestOk, AllNeeded, Linked, HeldOk, TreesOk, LinksOk, AllOrphansListed, EndsOk, HeadersSet, FullAnchored;
      hide IndexExact, CommitsOk, Ends;
      hide FullBlocks, Logged, NodesOk;
      hide Deep, Bar, ToCommitUpTo, Commits, Late, CommitChains;
      TreesParts(pool, f, genesis, chains);
      EndsLength(deepest);
      var bar, stop := FindConfirmBar(t);
      if stop {
        NoCommit(pool, View(), t, Late(f, now));
        return;
      }
      ghost var s := View();
      CommitBelow(t, bar, now);
      HasCommitted(pool, f, s, t, now, View());
      LoggedByClock(pool, f, Ends(deepest), t, now, old(log), log);
    }

    // ---------- asking for missing blocks ----------

    /** Gives up the orphan tree of entry i. */
    method DropOrphan(c: nat, i: nat)
      requires Valid() && c < |genesis| && c < |inchains| && i < |inchains[c]|
      modifies `f, `inchains
      ensures Valid() && f.nodes <= old(f.nodes) && c < |old(inchains)| && i < |old(inchains)[c]|
      ensures Evicts(pool, old(View()), old(inchains)[c][i].b.hash, View())
      ensures inchains == old(inchains)[c := old(inchains)[c][..i] + old(inchains)[c][i + 1..]]
    {
      hide ForestOk, TreesOk, LinksOk, AllOrphansListed, EndsOk, HeadersSet, FullAnchored, IndexExact, CommitsOk, Ends;
      hide FullBlocks, Logged, Without, Drop;
      TreesForest(pool, f, genesis, chains);
      DropEverything(pool, f, genesis, chains, inchains, deepest, nonFull, log, c, i);
      var b := inchains[c][i].b;
      var l := RemoveOneChain(inchains[c], b, i);
      f := Drop(pool, f, b.hash);
      inchains := inchains[c := l];
    }

    /** Asks for the missing block of every orphan tree that was not asked for lately; gives up trees asked for too often. */
    method GetIncompleteChainHashes(c: nat, now: nat, wait: nat, limit: nat)
      returns (hashes: seq<Hash>, ghost views: seq<NodeState>, ghost roots: seq<Hash>)
      requires Valid() && c < |genesis| && c < |inchains|
      modifies `f, `inchains
      ensures Valid() && c < |old(inchains)| && hashes == AskedFor(old(inchains)[c], now, wait, limit)
      ensures inchains == old(inchains)[c := Kept(old(inchains)[c], now, wait, limit)]
      ensures View() == old(View()).(held := Outside(pool, old(f.held), GivenUp(old(inchains)[c], now, wait, limit)))
      ensures Evictions(pool, views, roots) && views[0] == old(View()) && views[|roots|] == View()
      ensures forall i :: 0 <= i < |old(inchains)[c]| ==> Treated(old(inchains)[c][i], hashes, inchains[c], now, wait, limit)
      ensures InListOrder(old(inchains)[c], hashes) && InListOrder(old(inchains)[c], RootHashes(inchains[c]))
    {
      hide InListOrder, TreesOk, LinksOk, AllOrphansListed, Records, Elapsed, Kept, AskedFor, GivenUp, Outside, Without, Linked;
      hide HeldOk, Midway, Treated, RootsDiffer, ForestOk, NodesOk, AllNeeded;
      ListDiffers(c);
      TreesParts(pool, f, genesis, chains);
      ghost var l, s := inchains[c], View();
      hashes, views, roots := [], [s], [];
      var k := 0;
      ghost var i := 0;
      MidwayNone(pool, f.held, l, now, wait, limit);
      while k < |inchains[c]|
        invariant Valid() && |inchains| == |old(inchains)| && i <= |l| && k == |Kept(l[..i], now, wait, limit)|
        invariant inchains == old(inchains)[c := Midway(l, i, now, wait, limit)]
        invariant hashes == AskedFor(l[..i], now, wait, limit)
        invariant View() == s.(held := Outside(pool, s.held, GivenUp(l[..i], now, wait, limit)))
        invariant Evictions(pool, views, roots) && views[0] == s && views[|roots|] == View()
        decreases |inchains[c]| - k
      {
        MidwayRest(l, i, now, wait, limit);
        MidwayNext(l, i, now, wait, limit);
        var e := inchains[c][k];
        if Elapsed(now, e.lastAsked) > wait {
          if e.noAsks + 1 > limit {
            DropOrphan(c, k);
            views, roots := views + [View()], roots + [e.b.hash];
            OutsideMore(pool, s.held, GivenUp(l[..i], now, wait, limit), l[i].b.hash);
          } else {
            Touched(pool, f, genesis, inchains, c, k, e.(lastAsked := now, noAsks := e.noAsks + 1));
            inchains := inchains[c := inchains[c][k := e.(lastAsked := now, noAsks := e.noAsks + 1)]];
            hashes := hashes + [e.b.hash];
            k := k + 1;
          }
        } else {
          k := k + 1;
        }
        i := i + 1;
      }
      MidwayAll(l, i, now, wait, limit);
      AllTreated(l, now, wait, limit, hashes, inchains[c]);
      AskingKeepsOrder(l, now, wait, limit);
    }

    lemma ListDiffers(c: nat)
      requires Valid() && c < |inchains|
      ensures RootsDiffer(inchains[c])
    {
      TreesParts(pool, f, genesis, chains);
      RootsOfList(pool, f, c, inchains[c]);
    }

    /** Erases entries of the fetch index. */
    method EraseAll(hs: seq<Hash>)
      modifies `nonFull
      ensures nonFull == old(nonFull) - Logged(hs)
    {
      var i := 0;
      while i < |hs|
        invariant i <= |hs| && nonFull == old(nonFull) - Logged(hs[..i])
      {
        nonFull := nonFull - {hs[i]};
        i := i + 1;
        assert hs[..i] == hs[..i - 1] + [hs[i - 1]];
      }
      assert hs[..i] == hs;
    }

    /** Goes through the fetch index in ascending order; `rest` is what the limit left out. */
    method CollectNonFull(now: nat, wait: nat, limit: nat) returns (nfb: seq<(Hash, nat)>, ghost rest: set<Hash>)
      requires Trees() && IndexExact(pool, f, nonFull)
      modifies `nonFull
      ensures AskedSoFar(old(nonFull), nonFull, nfb, rest, now, wait) && (rest != {} ==> |nfb| >= limit)
      ensures (|nfb| <= limit || |nfb| == 1)
    {
      hide TreesOk, LinksOk, IndexExact, Elapsed, AskedSoFar;
      ghost var index := nonFull;
      var left := nonFull.Keys;
      var toRemove: seq<Hash> := [];
      nfb := [];
      AskedNone(index, now, wait);
      while left != {}
        invariant Trees() && IndexExact(pool, f, index) && AskedSoFar(index, nonFull, nfb, left, now, wait)
        invariant toRemove == []
        invariant |nfb| <= limit && (|nfb| < limit || nfb == [])
        decreases left
      {
        ghost var least := SmallestOf(left);
        var h :| h in left && forall x :: x in left ==> h <= x;
        AskedNext(index, nonFull, nfb, left, now, wait, h);
        Fetched(pool, f, genesis, chains, index, h);
        left := left - {h};
        if Elapsed(now, nonFull[h].1) > wait {
          var c := nonFull[h].0;
          nonFull := nonFull[h := (c, now)];
          var bz := FindBlockByHashAndChainId(h, c);
          if bz != null && !bz.isFull {
            nfb := nfb + [(h, c)];
          } else if bz != null {
            toRemove := toRemove + [h];
          }
          if |nfb| >= limit {
            break;
          }
        }
      }
      rest := left;
      NoneRemoved(nonFull);
      EraseAll(toRemove);
    }

    /**
     * The blocks to ask the peers' full blocks for: those of the index, in ascending order, that were not asked for lately,
     * until the limit is reached.  The index is exact, so the entries of full blocks that the source cleans up never occur.
     */
    method GetNonFullBlocks(now: nat, wait: nat, limit: nat) returns (nfb: seq<(Hash, nat)>)
      requires Valid()
      modifies `nonFull
      ensures Valid() && View() == old(View()) && Renewed(old(nonFull), nonFull, nfb, now)
      ensures Asks(old(nonFull), nfb, old(DueKeys(nonFull, now, wait))) && (|nfb| <= limit || |nfb| == 1)
      ensures forall h :: h in old(DueKeys(nonFull, now, wait)) && !AskedIn(nfb, h) ==>
        (|nfb| >= limit && forall i :: 0 <= i < |nfb| ==> nfb[i].0 < h)
      ensures forall h :: FetchTreated(old(nonFull), nonFull, nfb, h, now, wait, limit)
    {
      hide TreesOk, LinksOk, AllOrphansListed, EndsOk, HeadersSet, FullAnchored, CommitsOk, Ends, FullBlocks, Logged;
      hide IndexExact;
      hide Renewed, Asks, AskedIn, DueKeys, AskedSoFar, FetchTreated;
      ghost var index := nonFull;
      ghost var rest;
      nfb, rest := CollectNonFull(now, wait, limit);
      AskedDone(index, nonFull, nfb, rest, now, wait);
      IndexRenewed(pool, f, index, nfb, nonFull, now);
      FetchRound(index, nonFull, nfb, now, wait, limit);
    }
  }

  lemma NoneRemoved(m: map<Hash, (nat, nat)>)
    ensures m - Logged([]) == m
  {
  }

  // ---------- what validity means ----------

  /** The counter of commits is the number of full blocks marked as committed; and they are what reached commit_block. */
  lemma CommitsAreCounted(b: Blockchain)
    requires b.Valid()
    ensures b.commitedTotal == |Marked(b.pool, b.f)| && b.View().committed == Marked(b.pool, b.f)
  {
    TreesParts(b.pool, b.f, b.genesis, b.chains);
    LogIsMarked(b.pool, b.f, b.log);
  }

  /** The node's state fits the invariant that the protocol keeps for every node. */
  lemma ValidIsNodeOk(b: Blockchain)
    requires b.Valid()
    ensures NodeOk(b.pool, b.View())
  {
    hide TreesOk, LinksOk, AllOrphansListed, EndsOk, HeadersSet, FullAnchored, IndexExact, CommitsOk, Linked, HeldOk;
    hide IsDeepest;
    TreesParts(b.pool, b.f, b.genesis, b.chains);
    EndsAreDeepest(b.pool, b.f, b.genesis, b.deepest);
  }

  lemma EndsAreDeepest(pool: Pool, f: Forest, genesis: seq<Hash>, deepest: seq<Node>)
    requires EndsOk(pool, f, genesis, deepest)
    ensures forall c :: 0 <= c < |Ends(deepest)| ==> IsDeepest(pool, f.held, c, Ends(deepest)[c])
  {
    hide IsDeepest;
    forall c | 0 <= c < |Ends(deepest)| ensures IsDeepest(pool, f.held, c, Ends(deepest)[c]) {
      assert Ends(deepest)[c] == deepest[c].hash;
    }
  }

  /** Whatever the order and number of deliveries: nodes that hold the same headers have the same trees and child lists. */
  lemma DeliveryOrderDoesNotMatter(a: Blockchain, b: Blockchain)
    requires a.Valid() && b.Valid() && a.pool == b.pool && a.f.held == b.f.held
    ensures a.f.shape.Keys == b.f.shape.Keys && forall r :: r in a.f.shape ==> TreeHashes(a.f, r) == TreeHashes(b.f, r)
    ensures forall p, c :: p in a.f.nodes && p in a.f.kids && c in a.f.kids[p] ==> HasKid(b.f, p.hash, c.hash)
  {
    hide ForestOk, AllNeeded, LinksOk, AllOrphansListed, HeadersSet, FullAnchored, IndexExact, CommitsOk, EndsOk;
    HeldDetermines(a.pool, a.f, b.f);
  }

  // ---------- deliveries in any order ----------

  /** The headers of a list that a node can come to hold. */
  ghost function Deliverable(pool: Pool, hs: seq<Hash>): set<Hash> {
    set h | h in hs && h in pool && pool[h].depth > 0
  }

  /** The states of a node while headers are delivered one by one. */
  ghost predicate Deliveries(pool: Pool, chains: nat, ss: seq<NodeState>, hs: seq<Hash>) {
    && |ss| == |hs| + 1 && |ss[0].deepest| == chains && (forall h :: h in pool ==> pool[h].chain < chains)
    && forall i :: 0 <= i < |hs| ==> Receives(pool, ss[i], hs[i], ss[i + 1])
  }

  lemma {:induction false} DeliveriesHold(pool: Pool, chains: nat, ss: seq<NodeState>, hs: seq<Hash>, n: nat)
    requires Deliveries(pool, chains, ss, hs) && n <= |hs|
    ensures ss[n].held == ss[0].held + Deliverable(pool, hs[..n]) && |ss[n].deepest| == chains
    decreases n
  {
    hide DeepestMoves;
    if n > 0 {
      DeliveriesHold(pool, chains, ss, hs, n - 1);
      assert Receives(pool, ss[n - 1], hs[n - 1], ss[n]);
      assert hs[..n] == hs[..n - 1] + [hs[n - 1]];
    }
  }

  /** A permutation or repetition of the same deliveries ends with the same held headers, and so with the same trees. */
  lemma AnyOrderHoldsTheSame(pool: Pool, chains: nat, ss: seq<NodeState>, hs: seq<Hash>, tt: seq<NodeState>,
      ks: seq<Hash>)
    requires Deliveries(pool, chains, ss, hs) && Deliveries(pool, chains, tt, ks)
    requires ss[0].held == tt[0].held && forall h :: h in hs <==> h in ks
    ensures ss[|hs|].held == tt[|ks|].held
  {
    DeliveriesHold(pool, chains, ss, hs, |hs|);
    DeliveriesHold(pool, chains, tt, ks, |ks|);
    assert hs[..|hs|] == hs && ks[..|ks|] == ks;
    assert Deliverable(pool, hs) == Deliverable(pool, ks);
  }
}
