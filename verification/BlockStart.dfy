/**
 * The trees and records of a node that has its genesis blocks and nothing else.
 */
module BlockStart {
  import opened Prelude
  import opened Headers
  import opened Holdings
  import opened SearchTrees
  import opened BlockForest
  import opened BlockLinks
  import opened BlockIndex
  import opened BlockJoins
  import opened BlockSteps
  import opened RankOrder
  import opened Protocol

  function GenesisHeader(c: nat, h: Hash): Header {
    Header(c, h, 0, 0, 0, [])
  }

  /** The pool's blocks without a parent are the given genesis blocks, one per chain. */
  ghost predicate StartsFrom(pool: Pool, hashes: seq<Hash>) {
    Linked(pool) && GenesisOk(pool, hashes) && forall c :: 0 <= c < |hashes| ==> pool[hashes[c]] == GenesisHeader(c, hashes[c])
  }

  const NO_FOREST: Forest := Forest({}, map[], {}, map[], map[])

  /** The first chains have their genesis block. */
  ghost predicate Boots(pool: Pool, hashes: seq<Hash>, f: Forest, chains: seq<Node>) {
    && f.held == {} && ForestOk(pool, f) && |chains| <= |hashes|
    && (forall c :: 0 <= c < |chains| ==> MainTop(f, hashes[c], chains[c]))
    && (forall h :: h in f.shape ==> h in hashes[..|chains|])
  }

  ghost predicate GenesisMarks(pool: Pool, nodes: set<Node>)
    reads nodes`header, nodes`isFull, nodes`timeCommited
  {
    forall n :: n in nodes ==> n.hash in pool && n.header == Some(pool[n.hash]) && n.isFull && n.timeCommited != 0
  }

  lemma BootsNone(pool: Pool, hashes: seq<Hash>)
    requires StartsFrom(pool, hashes)
    ensures Boots(pool, hashes, NO_FOREST, []) && LinksOk(pool, NO_FOREST) && GenesisMarks(pool, NO_FOREST.nodes)
  {
  }

  lemma BootsNewcomer(pool: Pool, hashes: seq<Hash>, f: Forest, chains: seq<Node>, n: Node)
    requires StartsFrom(pool, hashes) && Boots(pool, hashes, f, chains) && |chains| < |hashes|
    requires n.hash == hashes[|chains|] && n !in f.nodes
    ensures IsNewcomer(pool, f, n) && ForestOk(pool, f) && n.hash in pool
    ensures pool[n.hash] == GenesisHeader(|chains|, n.hash)
  {
    assert forall c :: 0 <= c < |chains| ==> pool[hashes[c]].chain != pool[n.hash].chain;
    hide ShapeOk, KidsOk, Linked;
    assert f.at.Keys == f.shape.Keys;
  }

  lemma BootsNext(pool: Pool, hashes: seq<Hash>, f: Forest, chains: seq<Node>, n: Node)
    requires StartsFrom(pool, hashes) && Boots(pool, hashes, f, chains) && |chains| < |hashes|
    requires n.hash == hashes[|chains|] && n !in f.nodes
    ensures Boots(pool, hashes, NewRoot(f, n), chains + [n])
  {
    hide ForestOk, StartsFrom, NewRoot, IsNewcomer;
    BootsNewcomer(pool, hashes, f, chains, n);
    NewcomerRoot(pool, f, n);
    NewRootOk(pool, f, n);
    NewRootFields(f, n);
    var g, after := NewRoot(f, n), chains + [n];
    assert hashes[..|after|] == hashes[..|chains|] + [n.hash];
    forall c | 0 <= c < |after| ensures MainTop(g, hashes[c], after[c]) {
      if c < |chains| { assert MainTop(f, hashes[c], chains[c]); }
    }
  }

  lemma NewcomerRoot(pool: Pool, f: Forest, n: Node)
    requires ForestOk(pool, f) && IsNewcomer(pool, f, n)
    ensures n.hash !in f.at && n.hash !in f.shape
  {
  }

  lemma {:induction false} OnlyGenesisAnchored(pool: Pool, h: Hash)
    ensures Root(pool, {}, h) == h
  {
  }

  /** With all genesis blocks the node has everything it keeps. */
  lemma Booted(pool: Pool, hashes: seq<Hash>, f: Forest, chains: seq<Node>)
    requires StartsFrom(pool, hashes) && Boots(pool, hashes, f, chains) && |chains| == |hashes|
    requires GenesisMarks(pool, f.nodes)
    ensures TreesOk(pool, f, hashes, chains) && HeadersSet(pool, f.nodes, f.held) && FullAnchored(pool, f.nodes, f.held)
    ensures EndsOk(pool, f, hashes, chains) && IndexExact(pool, f, map[]) && CommitsOk(pool, f, [])
    ensures f.held == {} && forall h :: h in f.shape ==> IsGenesis(pool, h)
  {
    BootedEnds(pool, hashes, f, chains);
    BootedRecords(pool, hashes, f, chains);
    BootedNodes(pool, hashes, f, chains);
    hide ForestOk, Linked, EndsOk, HeadersSet, FullAnchored, IndexExact, CommitsOk, GenesisMarks;
  }

  lemma BootedRecords(pool: Pool, hashes: seq<Hash>, f: Forest, chains: seq<Node>)
    requires StartsFrom(pool, hashes) && Boots(pool, hashes, f, chains) && |chains| == |hashes|
    requires GenesisMarks(pool, f.nodes)
    ensures HeadersSet(pool, f.nodes, f.held) && FullAnchored(pool, f.nodes, f.held)
    ensures IndexExact(pool, f, map[]) && CommitsOk(pool, f, [])
  {
    hide StartsFrom, ForestOk, Anchored;
    BootedNodes(pool, hashes, f, chains);
    forall n | n in f.nodes ensures Anchored(pool, {}, n.hash) { GenesisAnchored(pool, n.hash); }
    assert forall h :: !ToFetch(pool, f, h);
    hide Boots, ToFetch;
  }

  lemma GenesisAnchored(pool: Pool, h: Hash)
    requires IsGenesis(pool, h)
    ensures Anchored(pool, {}, h)
  {
  }

  lemma BootedEnds(pool: Pool, hashes: seq<Hash>, f: Forest, chains: seq<Node>)
    requires StartsFrom(pool, hashes) && Boots(pool, hashes, f, chains) && |chains| == |hashes|
    ensures EndsOk(pool, f, hashes, chains)
  {
    BootedNodes(pool, hashes, f, chains);
    hide ForestOk, Linked;
    forall h ensures Root(pool, {}, h) == h { OnlyGenesisAnchored(pool, h); }
    hide Root;
  }

  lemma BootedNodes(pool: Pool, hashes: seq<Hash>, f: Forest, chains: seq<Node>)
    requires StartsFrom(pool, hashes) && Boots(pool, hashes, f, chains) && |chains| == |hashes|
    ensures forall h :: h in f.shape ==> IsGenesis(pool, h)
    ensures forall n :: n in f.nodes ==> IsGenesis(pool, n.hash)
    ensures forall c :: 0 <= c < |chains| ==> chains[c] in f.nodes && chains[c].hash == hashes[c]
    ensures forall h :: h in f.at ==> f.at[h] in f.nodes
  {
    assert hashes[..|chains|] == hashes;
    hide ShapeOk, KidsOk, Linked;
    forall h | h in f.shape ensures IsGenesis(pool, h) {
      var c :| 0 <= c < |hashes| && hashes[c] == h;
    }
    assert f.at.Keys == f.shape.Keys;
    forall c | 0 <= c < |chains| ensures chains[c] in f.nodes && chains[c].hash == hashes[c] {
      assert MainTop(f, hashes[c], chains[c]);
    }
  }

  lemma NoOrphans(pool: Pool, f: Forest, hashes: seq<Hash>, inchains: seq<seq<Incomplete>>)
    requires |inchains| == |hashes| && (forall c :: 0 <= c < |inchains| ==> inchains[c] == [])
    requires forall h :: h in f.shape ==> IsGenesis(pool, h)
    ensures AllOrphansListed(pool, f, hashes, inchains)
  {
  }

  lemma FirstView(pool: Pool, hashes: seq<Hash>, f: Forest, chains: seq<Node>)
    requires StartsFrom(pool, hashes) && Boots(pool, hashes, f, chains) && |chains| == |hashes|
    requires GenesisMarks(pool, f.nodes)
    ensures Ends(chains) == hashes && FullBlocks(f) == (set h | h in hashes) && Logged([]) == {}
  {
    BootedNodes(pool, hashes, f, chains);
    assert hashes[..|chains|] == hashes;
    hide ShapeOk, KidsOk, Linked;
    forall h ensures h in FullBlocks(f) <==> h in hashes {
      if h in hashes {
        var c :| 0 <= c < |hashes| && hashes[c] == h;
        assert MainTop(f, hashes[c], chains[c]);
      }
    }
  }
}
