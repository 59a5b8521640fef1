/**
 * Block headers and the parent relation they carry.
 *
 * A pool maps a block hash to the one header that has this hash: every header mined in a run.
 * `tips` lists the last blocks of all chains in the miner's view; the header commits to it through its
 * Merkle root over the chains.  A header of depth 0 is the genesis block of its chain.
 */
module Headers {

  type Hash = nat

  datatype Header = Header(chain: nat, parent: Hash, depth: nat, rank: nat, nextRank: nat, tips: seq<Hash>)

  type Pool = map<Hash, Header>

  predicate IsGenesis(pool: Pool, h: Hash) {
    h in pool && pool[h].depth == 0
  }

  /** The parent link of `h` can be followed in the pool; the depth test makes every walk end. */
  predicate HasParent(pool: Pool, h: Hash) {
    h in pool && pool[h].depth > 0 && pool[h].parent in pool && pool[pool[h].parent].depth < pool[h].depth
  }

  function Depth(pool: Pool, h: Hash): nat {
    if h in pool then pool[h].depth else 0
  }

  /** Parents are in the pool, one level up and on the same chain. */
  ghost predicate Linked(pool: Pool) {
    forall h {:trigger pool[h].parent} :: h in pool && pool[h].depth > 0 ==>
      && pool[h].parent in pool
      && pool[pool[h].parent].depth + 1 == pool[h].depth
      && pool[pool[h].parent].chain == pool[h].chain
  }

  /** The hashes from genesis down to `h`. */
  function Path(pool: Pool, h: Hash): (p: seq<Hash>)
    ensures |p| > 0 && p[|p| - 1] == h
    decreases Depth(pool, h)
  {
    if HasParent(pool, h) then Path(pool, pool[h].parent) + [h] else [h]
  }

  /** Position i of a path holds a block of depth i on the same chain, and the path up to it is its own path. */
  lemma {:induction false} PathShape(pool: Pool, h: Hash)
    requires Linked(pool) && h in pool
    ensures |Path(pool, h)| == pool[h].depth + 1
    ensures forall i {:trigger Path(pool, h)[i]} :: 0 <= i < |Path(pool, h)| ==>
      && Path(pool, h)[i] in pool
      && pool[Path(pool, h)[i]].depth == i
      && pool[Path(pool, h)[i]].chain == pool[h].chain
      && Path(pool, Path(pool, h)[i]) == Path(pool, h)[..i + 1]
    decreases Depth(pool, h)
  {
    var p := Path(pool, h);
    if HasParent(pool, h) {
      var q := Path(pool, pool[h].parent);
      PathShape(pool, pool[h].parent);
      forall i | 0 <= i < |p|
        ensures p[i] in pool && pool[p[i]].depth == i && pool[p[i]].chain == pool[h].chain
        ensures Path(pool, p[i]) == p[..i + 1]
      {
        if i < |q| {
          assert p[i] == q[i];
          assert p[..i + 1] == q[..i + 1];
        }
      }
    }
  }

  /** Paths are settled once a header is in the pool: later headers do not change them. */
  lemma {:induction false} PathStable(pool: Pool, later: Pool, h: Hash)
    requires Linked(pool) && h in pool
    requires forall x :: x in pool ==> x in later && later[x] == pool[x]
    ensures Path(later, h) == Path(pool, h)
    decreases Depth(pool, h)
  {
    if pool[h].depth > 0 {
      PathStable(pool, later, pool[h].parent);
    }
  }

  /** Following one parent link drops the last block of the path. */
  lemma PathParent(pool: Pool, h: Hash)
    requires Linked(pool) && h in pool && pool[h].depth > 0
    ensures |Path(pool, h)| == pool[h].depth + 1
    ensures Path(pool, pool[h].parent) == Path(pool, h)[..pool[h].depth]
  {
    PathShape(pool, pool[h].parent);
    assert Path(pool, h) == Path(pool, pool[h].parent) + [h];
  }
}
