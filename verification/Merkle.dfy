/**
 * Merkle proofs over the chain ends a block was mined on.
 *
 * The hash function is a parameter: any function with 64-character results.  Soundness is a reduction: a proof
 * accepted for the wrong leaf yields two different strings with the same hash, one hashed by the verifier and
 * one hashed while the tree was built.
 */
module Merkle {
  import opened Prelude

  type Hasher = string -> string

  ghost predicate FixedLength(sha: Hasher) {
    forall s {:trigger sha(s)} :: |sha(s)| == 64
  }

  /** One level up: neighbours are hashed together, an odd last one is dropped. */
  function PairUp(sha: Hasher, s: seq<string>): (r: seq<string>)
    ensures |r| == |s| / 2
    ensures forall i {:trigger r[i]} :: 0 <= i < |r| ==> r[i] == sha(s[2 * i] + s[2 * i + 1])
  {
    seq(|s| / 2, i requires 0 <= i < |s| / 2 => sha(s[2 * i] + s[2 * i + 1]))
  }

  function Root(sha: Hasher, s: seq<string>): string
    requires |s| > 0
    decreases |s|
  {
    if |s| == 1 then s[0] else Root(sha, PairUp(sha, s))
  }

  function Neighbour(i: nat): nat {
    if i % 2 == 1 then i - 1 else i + 1
  }

  /** The neighbours on the way up from leaf i. */
  function Siblings(sha: Hasher, s: seq<string>, i: nat): seq<string>
    requires |s| > 0
    decreases |s|
  {
    if |s| == 1 then []
    else (if Neighbour(i) < |s| / 2 * 2 then [s[Neighbour(i)]] else []) + Siblings(sha, PairUp(sha, s), i / 2)
  }

  /** The hash a verifier computes from a leaf and its siblings. */
  function Climb(sha: Hasher, h: string, siblings: seq<string>, i: nat): string
    decreases |siblings|
  {
    if siblings == [] then h else Climb(sha, sha(Joined(h, siblings[0], i)), siblings[1..], i / 2)
  }

  function Joined(h: string, sibling: string, i: nat): string {
    if i % 2 == 1 then sibling + h else h + sibling
  }

  predicate Accepts(sha: Hasher, proof: seq<string>, h: string, root: string, i: nat)
    requires |proof| >= 2
  {
    && (proof[0] == h || proof[1] == h)
    && Climb(sha, h, proof[1..|proof| - 1], i) == proof[|proof| - 1] == root
  }

  // ---------- the loops ----------

  method ComputeMerkleTreeRoot(sha: Hasher, leaves: seq<string>) returns (root: string)
    requires |leaves| > 0
    ensures root == Root(sha, leaves)
  {
    var tmp := leaves;
    while |tmp| > 1
      invariant |tmp| > 0 && Root(sha, tmp) == Root(sha, leaves)
      decreases |tmp|
    {
      var above := HashLevel(sha, tmp);
      tmp := above;
    }
    root := tmp[0];
  }

  method HashLevel(sha: Hasher, level: seq<string>) returns (above: seq<string>)
    ensures above == PairUp(sha, level)
  {
    above := [];
    var i := 0;
    while i < |level| / 2
      invariant 0 <= i <= |level| / 2 && above == PairUp(sha, level)[..i]
    {
      above := above + [sha(level[2 * i] + level[2 * i + 1])];
      i := i + 1;
    }
  }

  method ComputeMerkleProof(sha: Hasher, leaves: seq<string>, index: nat) returns (proof: seq<string>)
    requires index < |leaves|
    ensures proof == [leaves[index]] + Siblings(sha, leaves, index) + [Root(sha, leaves)]
  {
    ghost var goal := [leaves[index]] + Siblings(sha, leaves, index);
    proof := [leaves[index]];
    var tmp, i := leaves, index;
    while |tmp| > 1
      invariant |tmp| > 0 && Root(sha, tmp) == Root(sha, leaves)
      invariant proof + Siblings(sha, tmp, i) == goal
      decreases |tmp|
    {
      SiblingsStep(sha, proof, tmp, i);
      if Neighbour(i) < |tmp| / 2 * 2 {
        proof := proof + [tmp[Neighbour(i)]];
      }
      var above := HashLevel(sha, tmp);
      tmp, i := above, i / 2;
    }
    proof := proof + [tmp[0]];
  }

  lemma SiblingsStep(sha: Hasher, proof: seq<string>, s: seq<string>, i: nat)
    requires |s| > 1
    ensures proof + Siblings(sha, s, i) ==
            (if Neighbour(i) < |s| / 2 * 2 then proof + [s[Neighbour(i)]] else proof) + Siblings(sha, PairUp(sha, s), i / 2)
  {
  }

  method VerifyMerkleProof(sha: Hasher, proof: seq<string>, hash: string, root: string, index: nat) returns (ok: bool)
    requires |proof| >= 2
    ensures ok == Accepts(sha, proof, hash, root, index)
    ensures ok <==> (proof[0] == hash || proof[1] == hash) && proof[|proof| - 1] == root
                    && Climb(sha, hash, proof[1..|proof| - 1], index) == root
  {
    if proof[0] != hash && proof[1] != hash {
      return false;
    }
    var h, at, i := hash, index, 1;
    while i + 1 < |proof|
      invariant 1 <= i <= |proof| - 1
      invariant Climb(sha, h, proof[i..|proof| - 1], at) == Climb(sha, hash, proof[1..|proof| - 1], index)
    {
      assert proof[i..|proof| - 1][1..] == proof[i + 1..|proof| - 1];
      h := sha(Joined(h, proof[i], at));
      i, at := i + 1, at / 2;
    }
    ok := proof[i] == h && root == h;
  }

  // ---------- complete trees ----------

  function Pow2(k: nat): (r: nat)
    ensures r >= 1
  {
    if k == 0 then 1 else 2 * Pow2(k - 1)
  }

  /** The smallest k with 2^k >= n. */
  function Levels(n: nat): (k: nat)
    ensures n <= Pow2(k) && (k > 0 ==> Pow2(k - 1) < n)
  {
    LevelsFrom(n, 0)
  }

  function LevelsFrom(n: nat, k: nat): (r: nat)
    requires k > 0 ==> Pow2(k - 1) < n
    ensures n <= Pow2(r) && (r > 0 ==> Pow2(r - 1) < n)
    decreases if n > Pow2(k) then n - Pow2(k) else 0
  {
    if n <= Pow2(k) then k else LevelsFrom(n, k + 1)
  }

  /** The length of a proof over `chains` leaves: the leaf, one sibling per level, the root. */
  function ProofLength(chains: nat): nat {
    1 + Levels(chains) + 1
  }

  /** In a complete tree every leaf has a sibling on each level. */
  lemma {:induction false} SiblingsLength(sha: Hasher, s: seq<string>, i: nat, k: nat)
    requires |s| == Pow2(k) && i < |s|
    ensures |Siblings(sha, s, i)| == k
    decreases k
  {
    if k > 0 {
      SiblingsLength(sha, PairUp(sha, s), i / 2, k - 1);
    }
  }

  lemma JoinedPair(s: seq<string>, i: nat)
    requires |s| % 2 == 0 && i < |s|
    ensures Neighbour(i) < |s| && Joined(s[i], s[Neighbour(i)], i) == s[2 * (i / 2)] + s[2 * (i / 2) + 1]
  {
  }

  /** Completeness: climbing from a leaf along its siblings reaches the root. */
  lemma {:induction false} ClimbReachesRoot(sha: Hasher, s: seq<string>, i: nat, k: nat)
    requires |s| == Pow2(k) && i < |s|
    ensures Climb(sha, s[i], Siblings(sha, s, i), i) == Root(sha, s)
    decreases k
  {
    if k > 0 {
      ClimbReachesRoot(sha, PairUp(sha, s), i / 2, k - 1);
      JoinedPair(s, i);
    }
  }

  /** The proof made for a leaf of a complete tree is accepted for it. */
  lemma ProofAccepted(sha: Hasher, s: seq<string>, i: nat, k: nat)
    requires |s| == Pow2(k) && i < |s|
    ensures var proof := [s[i]] + Siblings(sha, s, i) + [Root(sha, s)];
      |proof| == k + 2 && Accepts(sha, proof, s[i], Root(sha, s), i)
  {
    var proof := [s[i]] + Siblings(sha, s, i) + [Root(sha, s)];
    SiblingsLength(sha, s, i, k);
    ClimbReachesRoot(sha, s, i, k);
    assert proof[1..|proof| - 1] == Siblings(sha, s, i);
  }

  // ---------- soundness ----------

  /** The strings hashed while climbing. */
  function ClimbInputs(sha: Hasher, h: string, siblings: seq<string>, i: nat): set<string>
    decreases |siblings|
  {
    if siblings == [] then {}
    else {Joined(h, siblings[0], i)} + ClimbInputs(sha, sha(Joined(h, siblings[0], i)), siblings[1..], i / 2)
  }

  /** The strings hashed while building the tree. */
  ghost function TreeInputs(sha: Hasher, s: seq<string>): set<string>
    requires |s| > 0
    decreases |s|
  {
    if |s| == 1 then {}
    else (set i | 0 <= i < |s| / 2 :: s[2 * i] + s[2 * i + 1]) + TreeInputs(sha, PairUp(sha, s))
  }

  /** Same length at the same place: the joined strings determine the leaf. */
  lemma JoinedDetermines(h: string, sibling: string, i: nat, left: string, right: string)
    requires Joined(h, sibling, i) == left + right
    requires |h| == if i % 2 == 1 then |right| else |left|
    ensures h == if i % 2 == 1 then right else left
  {
    if i % 2 == 1 {
      assert h == (sibling + h)[|sibling|..];
      assert right == (left + right)[|left|..];
    } else {
      assert h == (h + sibling)[..|h|];
      assert left == (left + right)[..|left|];
    }
  }

  /** One level: the climbing string is the tree's own node, or the two inputs collide. */
  lemma JoinedSound(sha: Hasher, s: seq<string>, h: string, sibling: string, i: nat)
    requires i < |s| && |s| % 2 == 0 && |h| == |s[i]| && |s| > 1
    requires sha(Joined(h, sibling, i)) == PairUp(sha, s)[i / 2]
    ensures var y := s[2 * (i / 2)] + s[2 * (i / 2) + 1];
      && y in TreeInputs(sha, s)
      && (h == s[i] || (Joined(h, sibling, i) != y && sha(Joined(h, sibling, i)) == sha(y)))
  {
    var left, right := s[2 * (i / 2)], s[2 * (i / 2) + 1];
    if Joined(h, sibling, i) == left + right {
      JoinedDetermines(h, sibling, i, left, right);
    }
  }

  /**
   * Reaching the root from a string as long as leaf i means having started from leaf i, or having hashed a
   * string that collides with one hashed in the tree.
   */
  lemma {:induction false} ClimbSound(sha: Hasher, s: seq<string>, h: string, siblings: seq<string>,
      i: nat) returns (x: string, y: string)
    requires FixedLength(sha) && |s| == Pow2(|siblings|) && i < |s| && |h| == |s[i]|
    requires Climb(sha, h, siblings, i) == Root(sha, s)
    ensures h == s[i] || (x != y && sha(x) == sha(y) && x in ClimbInputs(sha, h, siblings, i) && y in TreeInputs(sha, s))
    decreases |siblings|
  {
    x, y := "", "";
    if siblings != [] {
      var joined := Joined(h, siblings[0], i);
      x, y := ClimbSound(sha, PairUp(sha, s), sha(joined), siblings[1..], i / 2);
      if sha(joined) == PairUp(sha, s)[i / 2] {
        JoinedSound(sha, s, h, siblings[0], i);
        x, y := joined, s[2 * (i / 2)] + s[2 * (i / 2) + 1];
      }
    }
  }
}
