/**
 * What a node holds: the set of header hashes it has received or mined, and what follows from that set alone.
 *
 * Walking up from a block, the walk ends either at a genesis block or at the first block that is not held.
 * That end is the root of the tree the block is kept in: the main tree of its chain, or the orphan tree that
 * waits for exactly this one missing block.
 */
module Holdings {
  import opened Prelude
  import opened Headers

  function Root(pool: Pool, held: set<Hash>, h: Hash): Hash
    decreases Depth(pool, h)
  {
    if h in held && HasParent(pool, h) then Root(pool, held, pool[h].parent) else h
  }

  /** The block is in the main tree of its chain. */
  predicate Anchored(pool: Pool, held: set<Hash>, h: Hash) {
    IsGenesis(pool, Root(pool, held, h))
  }

  /** Held headers come from the pool and are not genesis blocks. */
  ghost predicate HeldOk(pool: Pool, held: set<Hash>) {
    forall h :: h in held ==> h in pool && pool[h].depth > 0
  }

  lemma {:induction false} RootShape(pool: Pool, held: set<Hash>, h: Hash)
    requires Linked(pool) && h in pool
    ensures var r := Root(pool, held, h);
      && r in pool && pool[r].chain == pool[h].chain
      && pool[r].depth <= pool[h].depth && (r != h ==> pool[r].depth < pool[h].depth)
      && (r in held ==> pool[r].depth == 0)
    decreases Depth(pool, h)
  {
    if h in held && HasParent(pool, h) {
      RootShape(pool, held, pool[h].parent);
    }
  }

  /** Adding a header hangs the tree that waited for it under the tree of its parent; nothing else moves. */
  lemma {:induction false} RootAfterAdd(pool: Pool, held: set<Hash>, h: Hash, x: Hash)
    requires Linked(pool) && h in pool && pool[h].depth > 0 && h !in held && x in pool
    ensures Root(pool, held + {h}, x) ==
            if Root(pool, held, x) == h then Root(pool, held, pool[h].parent) else Root(pool, held, x)
    decreases Depth(pool, x)
  {
    RootShape(pool, held, pool[h].parent);
    if x == h {
      RootAfterAdd(pool, held, h, pool[h].parent);
    } else if x in held && HasParent(pool, x) {
      RootAfterAdd(pool, held, h, pool[x].parent);
    }
  }

  /** Dropping one whole tree leaves the others as they are. */
  lemma {:induction false} RootAfterDrop(pool: Pool, held: set<Hash>, r: Hash, x: Hash)
    requires Linked(pool) && x in pool && Root(pool, held, x) != r
    ensures Root(pool, Without(pool, held, r), x) == Root(pool, held, x)
    decreases Depth(pool, x)
  {
    if x in held && HasParent(pool, x) {
      RootAfterDrop(pool, held, r, pool[x].parent);
    }
  }

  /** The held headers outside the tree rooted at `r`. */
  ghost function Without(pool: Pool, held: set<Hash>, r: Hash): set<Hash> {
    set x | x in held && Root(pool, held, x) != r
  }

  /** A later pool does not move trees. */
  lemma {:induction false} RootStable(pool: Pool, later: Pool, held: set<Hash>, h: Hash)
    requires Linked(pool) && h in pool
    requires forall x :: x in pool ==> x in later && later[x] == pool[x]
    ensures Root(later, held, h) == Root(pool, held, h)
    decreases Depth(pool, h)
  {
    if h in held && pool[h].depth > 0 {
      RootStable(pool, later, held, pool[h].parent);
    }
  }

  /** Reference reading of the root: everything below it on the path is held, and it is itself missing or genesis. */
  ghost predicate HangsFrom(pool: Pool, held: set<Hash>, h: Hash, r: Hash) {
    var p := Path(pool, h);
    exists i :: 0 <= i < |p| && p[i] == r && (r !in held || IsGenesis(pool, r)) && forall j :: i < j < |p| ==> p[j] in held
  }

  lemma {:induction false} RootIsHangsFrom(pool: Pool, held: set<Hash>, h: Hash)
    requires Linked(pool) && HeldOk(pool, held) && h in pool
    ensures HangsFrom(pool, held, h, Root(pool, held, h))
    decreases Depth(pool, h)
  {
    var p := Path(pool, h);
    PathShape(pool, h);
    if h in held {
      RootIsHangsFrom(pool, held, pool[h].parent);
      var q := Path(pool, pool[h].parent);
      var r := Root(pool, held, h);
      var i :| 0 <= i < |q| && q[i] == r && (r !in held || IsGenesis(pool, r)) && forall j :: i < j < |q| ==> q[j] in held;
      assert p == q + [h];
      assert p[i] == r;
      forall j | i < j < |p| ensures p[j] in held {
        if j < |q| { assert p[j] == q[j]; }
      }
    } else {
      assert p[|p| - 1] == h;
    }
  }

  /** A block is in the main tree exactly when its whole ancestry is held, down to the genesis block. */
  lemma {:induction false} AnchoredIffAncestryHeld(pool: Pool, held: set<Hash>, h: Hash)
    requires Linked(pool) && HeldOk(pool, held) && h in pool
    ensures Anchored(pool, held, h) <==> forall x :: x in Path(pool, h) ==> x in held || IsGenesis(pool, x)
    decreases Depth(pool, h)
  {
    if h in held {
      AnchoredIffAncestryHeld(pool, held, pool[h].parent);
      assert Path(pool, h) == Path(pool, pool[h].parent) + [h];
    } else {
      assert h in Path(pool, h);
      if IsGenesis(pool, h) {
        assert Path(pool, h) == [h];
      }
    }
  }

  // ---------- longest chains ----------

  /** `tip` is a deepest block of the main tree of chain `c`. */
  ghost predicate IsDeepest(pool: Pool, held: set<Hash>, c: nat, tip: Hash) {
    && tip in pool && pool[tip].chain == c && Anchored(pool, held, tip)
    && forall x :: x in pool && pool[x].chain == c && Anchored(pool, held, x) ==> pool[x].depth <= pool[tip].depth
  }

  /** The main-tree blocks at or below `h`. */
  ghost predicate Under(pool: Pool, held: set<Hash>, h: Hash, x: Hash) {
    x in pool && Anchored(pool, held, x) && h in Path(pool, x)
  }

  /** How adding `h` moves the deepest block of its chain: only to a deepest block of what `h` connects, and only if deeper. */
  ghost predicate DeepestMoves(pool: Pool, held: set<Hash>, h: Hash, was: Hash, now: Hash) {
    if exists x :: Under(pool, held, h, x) && Depth(pool, x) > Depth(pool, was) then
      && Under(pool, held, h, now) && Depth(pool, now) > Depth(pool, was)
      && forall x :: Under(pool, held, h, x) ==> Depth(pool, x) <= Depth(pool, now)
    else
      now == was
  }

  /** The blocks a new header connects to the main tree are exactly those below it. */
  lemma {:induction false} NewlyAnchored(pool: Pool, held: set<Hash>, h: Hash, x: Hash)
    requires Linked(pool) && HeldOk(pool, held) && h in pool && pool[h].depth > 0 && h !in held && x in pool
    requires Anchored(pool, held + {h}, x) && !Anchored(pool, held, x)
    ensures h in Path(pool, x) && pool[h].chain == pool[x].chain && Anchored(pool, held + {h}, h)
    decreases Depth(pool, x)
  {
    RootAfterAdd(pool, held, h, x);
    RootAfterAdd(pool, held, h, h);
    RootShape(pool, held, x);
    RootIsHangsFrom(pool, held, x);
    assert Root(pool, held, x) == h;
  }

  lemma StillAnchored(pool: Pool, held: set<Hash>, h: Hash, x: Hash)
    requires Linked(pool) && h in pool && pool[h].depth > 0 && h !in held && x in pool && Anchored(pool, held, x)
    ensures Anchored(pool, held + {h}, x)
  {
    RootAfterAdd(pool, held, h, x);
  }

  /** The update rule keeps a deepest block for the chain of the new header. */
  lemma DeepestKept(pool: Pool, held: set<Hash>, h: Hash, was: Hash, now: Hash)
    requires Linked(pool) && HeldOk(pool, held) && h in pool && pool[h].depth > 0 && h !in held
    requires IsDeepest(pool, held, pool[h].chain, was) && DeepestMoves(pool, held + {h}, h, was, now)
    ensures IsDeepest(pool, held + {h}, pool[h].chain, now)
  {
    var after := held + {h};
    StillAnchored(pool, held, h, was);
    forall x | x in pool && pool[x].chain == pool[h].chain && Anchored(pool, after, x)
      ensures pool[x].depth <= Depth(pool, now)
    {
      if !Anchored(pool, held, x) {
        NewlyAnchored(pool, held, h, x);
        assert Under(pool, after, h, x);
      }
    }
    if now != was {
      PathShape(pool, now);
      var i :| 0 <= i < |Path(pool, now)| && Path(pool, now)[i] == h;
      assert pool[now].chain == pool[h].chain;
    }
  }

  /** The other chains keep theirs. */
  lemma DeepestElsewhere(pool: Pool, held: set<Hash>, h: Hash, c: nat, tip: Hash)
    requires Linked(pool) && HeldOk(pool, held) && h in pool && pool[h].depth > 0 && h !in held
    requires pool[h].chain != c && IsDeepest(pool, held, c, tip)
    ensures IsDeepest(pool, held + {h}, c, tip)
  {
    StillAnchored(pool, held, h, tip);
    forall x | x in pool && pool[x].chain == c && Anchored(pool, held + {h}, x) ensures Anchored(pool, held, x) {
      if !Anchored(pool, held, x) {
        NewlyAnchored(pool, held, h, x);
      }
    }
  }
}
