/**
 * Mining a block, and what a receiver checks of it.
 *
 * A miner commits to the ends of all its chains in a Merkle tree.  The hash of the tree root and of the block's
 * transactions is the block's hash, and also picks the chain: the proof shows the receiver that the parent is
 * the end of exactly that chain in the miner's view.
 */
module Mining {
  import opened Prelude
  import opened Numerals
  import opened Fields
  import opened Headers
  import opened RankOrder
  import Merkle
  import Messages
  import Protocol

  type Hasher = Merkle.Hasher

  /** The hash function prints 64 lower-case hexadecimal characters. */
  ghost predicate HexDigest(sha: Hasher) {
    forall s {:trigger sha(s)} :: |sha(s)| == 64 && LowerHex(sha(s))
  }

  const EMPTY_LEAF: string := "00000000000000000000000000000000"

  /** One leaf per chain, filled up to the next power of two. */
  function Leaves(tips: seq<Hash>): (s: seq<string>)
    ensures |s| == Merkle.Pow2(Merkle.Levels(|tips|))
    ensures forall i :: 0 <= i < |tips| ==> s[i] == BlockhashToString(tips[i])
    ensures forall i :: |tips| <= i < |s| ==> s[i] == "00000000000000000000000000000000"
  {
    seq(|tips|, i requires 0 <= i < |tips| => BlockhashToString(tips[i]))
      + seq(Merkle.Pow2(Merkle.Levels(|tips|)) - |tips|, i => EMPTY_LEAF)
  }

  /** The chain picked by the last six digits of a hash text. */
  function ChainOf(h: string, chains: nat): Option<nat>
    requires |h| >= 58 && chains > 0
  {
    match Stoi(h[58..], 16) case Some(v) => Some(v % chains) case None => None
  }

  /** One end of a chain as the miner sees it. */
  datatype Tip = Tip(hash: Hash, depth: nat, nextRank: nat)

  datatype Block = Block(chain: nat, parent: Hash, hash: Hash, depth: nat, rank: nat, nextRank: nat, trailingId: nat,
                         trailing: Hash, rootChains: string, rootTxs: string, proof: seq<string>)

  function Hashes(tips: seq<Tip>): seq<Hash> {
    seq(|tips|, i requires 0 <= i < |tips| => tips[i].hash)
  }

  /** The tips show what the pool says about them. */
  ghost predicate Shows(pool: Pool, tips: seq<Tip>) {
    forall i :: 0 <= i < |tips| ==> tips[i].depth == Depth(pool, tips[i].hash) && tips[i].nextRank == NextRank(pool, tips[i].hash)
  }

  /** The receiver's checks on the mining metadata of a block whose header it holds. */
  predicate MetadataOk(sha: Hasher, chains: nat, chain: nat, parent: Hash, hash: Hash, rootChains: string,
      rootTxs: string, proof: seq<string>)
    requires chains > 0 && |proof| >= 2
  {
    var h := sha(rootChains + rootTxs);
    && |h| >= 58
    && ChainOf(h, chains) == Some(chain)
    && StringToBlockhash(h) == Some(hash)
    && Merkle.Accepts(sha, proof, BlockhashToString(parent), rootChains, chain)
  }

  /** What mining makes of the view: the block extends the chain its own hash picks. */
  ghost predicate MinedFrom(sha: Hasher, tips: seq<Tip>, rootTxs: string, b: Block)
    requires |tips| > 0
  {
    var leaves := Leaves(Hashes(tips));
    var h := sha(Merkle.Root(sha, leaves) + rootTxs);
    && |h| >= 58 && b.chain < |tips| && b.chain < |leaves|
    && ChainOf(h, |tips|) == Some(b.chain) && StringToBlockhash(h) == Some(b.hash)
    && b.rootChains == Merkle.Root(sha, leaves) && b.rootTxs == rootTxs
    && b.parent == tips[b.chain].hash
    && b.proof == [leaves[b.chain]] + Merkle.Siblings(sha, leaves, b.chain) + [b.rootChains]
  }

  lemma ChainOfDigest(sha: Hasher, s: string, chains: nat)
    requires HexDigest(sha) && chains > 0
    ensures ChainOf(sha(s), chains).Some? && ChainOf(sha(s), chains).value < chains
  {
    var t := sha(s)[58..];
    assert |sha(s)| == 64 && LowerHex(sha(s));
    assert LowerHex(t);
    FixedOfValue(t);
    assert Pow16(6) == 0x100_0000 by { assert Pow16(3) == 4096; }
    NumeralOfDigits(t, 16);
  }

  /** The chain is the number that the last six hexadecimal digits spell, modulo the number of chains. */
  lemma ChainOfLastDigits(p: string, v: nat, chains: nat)
    requires |p| == 58 && v < 0x100_0000 && chains > 0
    ensures ChainOf(p + Fixed(v, 6), chains) == Some(v % chains)
  {
    var t := Fixed(v, 6);
    assert (p + t)[58..] == t;
    assert Pow16(6) == 0x100_0000 by { assert Pow16(3) == 4096; }
    FixedIsLowerHex(v, 6);
    ValueOfFixed(v, 6);
    NumeralOfDigits(t, 16);
  }

  /** Collects the leaves and the trailing chain in one loop over the chains, then fills up the tree. */
  method CollectTips(tips: seq<Tip>) returns (leaves: seq<string>, trailing: nat)
    requires |tips| > 0
    ensures leaves == Leaves(Hashes(tips))
    ensures trailing < |tips|
    ensures forall i :: 0 <= i < |tips| ==> tips[i].nextRank <= tips[trailing].nextRank
    ensures forall i :: 0 <= i < trailing ==> tips[i].nextRank < tips[trailing].nextRank
  {
    leaves, trailing := [], 0;
    var i := 0;
    while i < |tips|
      invariant 0 <= i <= |tips| && trailing < |tips| && (i > 0 ==> trailing < i)
      invariant leaves == Leaves(Hashes(tips))[..i]
      invariant forall j :: 0 <= j < i ==> tips[j].nextRank <= tips[trailing].nextRank
      invariant forall j :: 0 <= j < trailing ==> tips[j].nextRank < tips[trailing].nextRank
      invariant i == 0 ==> trailing == 0
    {
      if tips[i].nextRank > tips[trailing].nextRank {
        trailing := i;
      }
      leaves := leaves + [BlockhashToString(tips[i].hash)];
      i := i + 1;
    }
    var full := Merkle.Pow2(Merkle.Levels(|tips|));
    while i < full
      invariant |tips| <= i <= full && leaves == Leaves(Hashes(tips))[..i]
    {
      leaves := leaves + [EMPTY_LEAF];
      i := i + 1;
    }
  }

  /** The chain and the block hash that a block hash text names. */
  method NameBlock(sha: Hasher, text: string, chains: nat) returns (chain: nat, hash: Hash)
    requires HexDigest(sha) && chains > 0
    ensures |sha(text)| >= 58 && ChainOf(sha(text), chains) == Some(chain) && chain < chains
    ensures StringToBlockhash(sha(text)) == Some(hash)
  {
    var h := sha(text);
    ChainOfDigest(sha, text, chains);
    assert |h| == 64 && LowerHex(h);
    BlockhashOfText(h);
    chain, hash := ChainOf(h, chains).value, StringToBlockhash(h).value;
  }

  /** The block that extends `chain` in the view, with its rank fields. */
  function Extended(tips: seq<Tip>, chain: nat, trailing: nat, hash: Hash, rootChains: string, rootTxs: string,
      proof: seq<string>): Block
    requires chain < |tips| && trailing < |tips|
  {
    var parent := tips[chain];
    Block(chain, parent.hash, hash, Inc32(parent.depth), parent.nextRank, Protocol.Lifted(parent.nextRank, tips[trailing].nextRank),
          trailing, tips[trailing].hash, rootChains, rootTxs, proof)
  }

  /**
   * The mined block takes over the next rank of its parent as its rank, and is lifted above it and to the highest
   * next rank in view, no further.  Numbers below 2^32 - 1 do not wrap.
   */
  method MineNewBlock(sha: Hasher, tips: seq<Tip>, rootTxs: string) returns (b: Block)
    requires HexDigest(sha) && |tips| > 0
    ensures MinedFrom(sha, tips, rootTxs, b)
    ensures b.trailingId < |tips| && b == Extended(tips, b.chain, b.trailingId, b.hash, b.rootChains, rootTxs, b.proof)
    ensures forall i :: 0 <= i < |tips| ==> tips[i].nextRank <= tips[b.trailingId].nextRank
    ensures forall i :: 0 <= i < b.trailingId ==> tips[i].nextRank < tips[b.trailingId].nextRank
    ensures b.chain < |tips| && b.parent == tips[b.chain].hash && b.trailing == tips[b.trailingId].hash
    ensures b.rank == tips[b.chain].nextRank
    ensures b.rank < 0xFFFF_FFFF ==> b.nextRank > b.rank
    ensures b.rank < 0xFFFF_FFFF ==> forall i :: 0 <= i < |tips| ==> b.nextRank >= tips[i].nextRank
    ensures b.nextRank == (b.rank + 1) % 0x1_0000_0000 || exists i :: 0 <= i < |tips| && b.nextRank == tips[i].nextRank
    ensures (exists i :: 0 <= i < |tips| && tips[i].nextRank > b.rank) ==> exists i :: 0 <= i < |tips| && b.nextRank == tips[i].nextRank
    ensures b.depth == (tips[b.chain].depth + 1) % 0x1_0000_0000
  {
    hide Inc32, Leaves, ChainOf, StringToBlockhash;
    var leaves, trailing := CollectTips(tips);
    var root := Merkle.ComputeMerkleTreeRoot(sha, leaves);
    var chain, hash := NameBlock(sha, root + rootTxs, |tips|);
    var parent := tips[chain];
    var proof := Merkle.ComputeMerkleProof(sha, leaves, chain);
    var nextRank := tips[trailing].nextRank;
    if nextRank <= parent.nextRank {
      nextRank := Inc32(parent.nextRank);
    }
    b := Block(chain, parent.hash, hash, Inc32(parent.depth), parent.nextRank, nextRank, trailing, tips[trailing].hash,
        root, rootTxs, proof);
    ExtendedRanks(tips, b, trailing);
    assert b == Extended(tips, chain, trailing, hash, root, rootTxs, proof);
  }

  /** What the fields of an extension of a chain mean. */
  lemma ExtendedRanks(tips: seq<Tip>, b: Block, trailing: nat)
    requires b.chain < |tips| && trailing < |tips| && b == Extended(tips, b.chain, trailing, b.hash, b.rootChains, b.rootTxs, b.proof)
    requires forall i :: 0 <= i < |tips| ==> tips[i].nextRank <= tips[trailing].nextRank
    ensures b.rank < 0xFFFF_FFFF ==> b.nextRank > b.rank
    ensures b.rank < 0xFFFF_FFFF ==> forall i :: 0 <= i < |tips| ==> b.nextRank >= tips[i].nextRank
    ensures b.nextRank == (b.rank + 1) % 0x1_0000_0000 || exists i :: 0 <= i < |tips| && b.nextRank == tips[i].nextRank
    ensures (exists i :: 0 <= i < |tips| && tips[i].nextRank > b.rank) ==> exists i :: 0 <= i < |tips| && b.nextRank == tips[i].nextRank
    ensures b.depth == (tips[b.chain].depth + 1) % 0x1_0000_0000
  {
    assert tips[trailing].nextRank >= tips[b.chain].nextRank;
  }

  /** The mined header is the one the protocol appends to the pool. */
  lemma MinesProtocolHeader(pool: Pool, tips: seq<Tip>, chain: nat, trailing: nat)
    requires Shows(pool, tips) && chain < |tips| && trailing < |tips|
    requires forall i :: 0 <= i < |tips| ==> tips[i].nextRank <= tips[trailing].nextRank
    requires forall i :: 0 <= i < trailing ==> tips[i].nextRank < tips[trailing].nextRank
    ensures Protocol.NewHeader(pool, Hashes(tips), chain) ==
            Header(chain, tips[chain].hash, Inc32(tips[chain].depth), tips[chain].nextRank,
                   Protocol.Lifted(tips[chain].nextRank, tips[trailing].nextRank), Hashes(tips))
  {
    var hs := Hashes(tips);
    Protocol.TrailingIsHighest(pool, hs);
    assert forall i :: 0 <= i < |tips| ==> NextRank(pool, hs[i]) == tips[i].nextRank;
    var t := Protocol.Trailing(pool, hs);
    assert t == trailing;
  }

  /**
   * In a view shown by a pool, what mining says about a block makes its header the one the protocol appends.
   */
  lemma MinedBlockIsNewHeader(pool: Pool, tips: seq<Tip>, b: Block)
    requires Shows(pool, tips) && b.chain < |tips| && b.parent == tips[b.chain].hash && b.rank == tips[b.chain].nextRank
    requires forall i :: 0 <= i < |tips| ==> tips[i].nextRank < 0xFFFF_FFFF && tips[i].depth < 0xFFFF_FFFF
    requires b.nextRank > b.rank && forall i :: 0 <= i < |tips| ==> b.nextRank >= tips[i].nextRank
    requires b.nextRank == b.rank + 1 || exists i :: 0 <= i < |tips| && b.nextRank == tips[i].nextRank
    requires b.depth == tips[b.chain].depth + 1
    ensures Header(b.chain, b.parent, b.depth, b.rank, b.nextRank, Hashes(tips)) == Protocol.NewHeader(pool, Hashes(tips), b.chain)
  {
    var hs := Hashes(tips);
    Protocol.TrailingIsHighest(pool, hs);
    var t := Protocol.Trailing(pool, hs);
    assert forall i :: 0 <= i < |tips| ==> NextRank(pool, hs[i]) == tips[i].nextRank && hs[i] == tips[i].hash;
    assert tips[t].nextRank == NextRank(pool, hs[t]);
  }

  // ---------- honest blocks pass ----------

  /** A mined block passes every check of a receiver, and its proof has the length the wire format expects. */
  lemma MinedIsValid(sha: Hasher, tips: seq<Tip>, rootTxs: string, b: Block)
    requires HexDigest(sha) && |tips| > 0 && MinedFrom(sha, tips, rootTxs, b)
    ensures |b.proof| == Merkle.ProofLength(|tips|)
    ensures MetadataOk(sha, |tips|, b.chain, b.parent, b.hash, b.rootChains, b.rootTxs, b.proof)
  {
    var leaves := Leaves(Hashes(tips));
    Merkle.ProofAccepted(sha, leaves, b.chain, Merkle.Levels(|tips|));
    assert leaves[b.chain] == BlockhashToString(Hashes(tips)[b.chain]);
  }

  /** The full-block message of a mined block. */
  function MessageOf(b: Block, ip: string, port: nat, txs: string, timeMined: nat, sentTime: nat): Messages.FullBlock {
    Messages.FullBlock(ip, port, b.chain, b.hash, txs,
                       Messages.Metadata(b.trailing, b.trailingId, b.rootChains, b.rootTxs, b.proof, timeMined), sentTime)
  }

  lemma {:induction false} HexIsFree(s: string)
    requires LowerHex(s)
    ensures Free(s, ',')
  {
    forall i | 0 <= i < |s| ensures s[i] != ',' {
      assert '0' <= s[i] <= '9' || 'a' <= s[i] <= 'f';
    }
  }

  /** All leaves of a tree are comma-free, so all hashes of a proof are. */
  lemma {:induction false} SiblingsAreFree(sha: Hasher, s: seq<string>, i: nat)
    requires HexDigest(sha) && |s| > 0 && forall j :: 0 <= j < |s| ==> LowerHex(s[j])
    ensures LowerHex(Merkle.Root(sha, s))
    ensures forall j :: 0 <= j < |Merkle.Siblings(sha, s, i)| ==> LowerHex(Merkle.Siblings(sha, s, i)[j])
    decreases |s|
  {
    if |s| > 1 {
      SiblingsAreFree(sha, Merkle.PairUp(sha, s), i / 2);
    }
  }

  lemma LeavesAreHex(tips: seq<Hash>)
    requires forall i :: 0 <= i < |tips| ==> tips[i] < U64
    ensures forall i :: 0 <= i < |Leaves(tips)| ==> LowerHex(Leaves(tips)[i])
  {
    forall i | 0 <= i < |Leaves(tips)| ensures LowerHex(Leaves(tips)[i]) {
      if i < |tips| { BlockhashRoundTrip(tips[i]); } else { assert Leaves(tips)[i] == EMPTY_LEAF; }
    }
  }

  lemma ProofIsFree(sha: Hasher, tips: seq<Tip>, rootTxs: string, b: Block)
    requires HexDigest(sha) && |tips| > 0 && MinedFrom(sha, tips, rootTxs, b)
    requires forall i :: 0 <= i < |tips| ==> tips[i].hash < U64
    ensures Free(b.rootChains, ',') && forall i :: 0 <= i < |b.proof| ==> Free(b.proof[i], ',')
  {
    hide Merkle.Siblings, Merkle.Root, Leaves, ChainOf, StringToBlockhash, LowerHex, Free;
    var leaves := Leaves(Hashes(tips));
    LeavesAreHex(Hashes(tips));
    SiblingsAreFree(sha, leaves, b.chain);
    HexIsFree(b.rootChains);
    HexIsFree(leaves[b.chain]);
    var sib := Merkle.Siblings(sha, leaves, b.chain);
    forall i | 0 <= i < |b.proof| ensures Free(b.proof[i], ',') {
      if 0 < i <= |sib| { assert b.proof[i] == sib[i - 1]; HexIsFree(sib[i - 1]); }
    }
  }

  /**
   * Honest blocks are accepted end to end: a mined block, written as a message, split and parsed by a receiver
   * that holds its header, passes the chain, hash and Merkle checks.
   */
  lemma HonestBlockAccepted(sha: Hasher, tips: seq<Tip>, rootTxs: string, b: Block,
                            ip: string, port: nat, txs: string, timeMined: nat, sentTime: nat, strict: bool)
    requires HexDigest(sha) && 0 < |tips| < I32 && MinedFrom(sha, tips, rootTxs, b)
    requires forall i :: 0 <= i < |tips| ==> tips[i].hash < U64
    requires b.trailing < U64 && b.trailingId < |tips|
    requires ip != [] && Free(ip, ',') && port < I32 && Free(txs, ',') && Free(rootTxs, ',') && timeMined < U64
    requires sentTime < U64
    ensures var message := MessageOf(b, ip, port, txs, timeMined, sentTime);
            var got := Messages.ParseFullBlock(SplitOn(Join(Messages.FullBlockFields(message), ','), ','), |tips|, strict);
      && got == Some(message) && |got.value.meta.proof| >= 2
      && MetadataOk(sha, |tips|, b.chain, b.parent, b.hash, got.value.meta.rootChains, got.value.meta.rootTxs, got.value.meta.proof)
  {
    hide Messages.ParseFullBlock, Messages.FullBlockFields, SplitOn, Join, MetadataOk, Merkle.ProofLength;
    var message := MessageOf(b, ip, port, txs, timeMined, sentTime);
    MinedIsValid(sha, tips, rootTxs, b);
    ProofIsFree(sha, tips, rootTxs, b);
    Messages.FullBlockRoundTrip(message, |tips|, strict);
  }

  // ---------- accepted blocks are honest ----------

  /**
   * Exactly what is accepted: the hash text of the two roots starts with the block's hash and ends with digits that
   * pick the block's chain, and the proof leads from the parent to the committed root.
   */
  lemma AcceptedNamesBlock(sha: Hasher, chains: nat, chain: nat, parent: Hash, hash: Hash, rootChains: string, rootTxs: string,
      proof: seq<string>)
    requires HexDigest(sha) && chains > 0 && |proof| >= 2 && hash < U64
    ensures |sha(rootChains + rootTxs)| == 64
    ensures MetadataOk(sha, chains, chain, parent, hash, rootChains, rootTxs, proof) <==>
      (
        && sha(rootChains + rootTxs)[..16] == BlockhashToString(hash)
        && (exists v :: 0 <= v < 0x100_0000 && sha(rootChains + rootTxs)[58..] == Fixed(v, 6) && chain == v % chains)
        && (proof[0] == BlockhashToString(parent) || proof[1] == BlockhashToString(parent))
        && proof[|proof| - 1] == rootChains
        && Merkle.Climb(sha, BlockhashToString(parent), proof[1..|proof| - 1], chain) == rootChains)
  {
    var h := sha(rootChains + rootTxs);
    assert |h| == 64 && LowerHex(h);
    HashNamed(h, hash);
    ChainPicked(h, chain, chains);
    hide BlockhashToString, StringToBlockhash, ChainOf, Merkle.Climb, Fixed, LowerHex;
  }

  lemma HashNamed(h: string, hash: Hash)
    requires |h| == 64 && LowerHex(h) && hash < U64
    ensures StringToBlockhash(h) == Some(hash) <==> h[..16] == BlockhashToString(hash)
  {
    BlockhashOfText(h);
    BlockhashRoundTrip(hash);
    hide BlockhashToString, Stoull;
    if h[..16] == BlockhashToString(hash) { assert BlockhashToString(hash)[..16] == BlockhashToString(hash); }
  }

  lemma ChainPicked(h: string, chain: nat, chains: nat)
    requires |h| == 64 && LowerHex(h) && chains > 0
    ensures ChainOf(h, chains) == Some(chain) <==> exists v :: 0 <= v < 0x100_0000 && h[58..] == Fixed(v, 6) && chain == v % chains
  {
    var t := h[58..];
    assert LowerHex(t) && h == h[..58] + t;
    FixedOfValue(t);
    assert Pow16(6) == 0x100_0000 by { assert Pow16(3) == 4096; }
    ChainOfLastDigits(h[..58], Value(t, 16), chains);
    hide ChainOf, Fixed;
    forall v | 0 <= v < 0x100_0000 && t == Fixed(v, 6) ensures ChainOf(h, chains) == Some(v % chains) {
      ChainOfLastDigits(h[..58], v, chains);
    }
  }

  /**
   * A block accepted against the root over some view extends the end of its own chain in that view, or two
   * different strings with the same hash are at hand.
   */
  lemma AcceptedExtendsView(sha: Hasher, tips: seq<Hash>, chain: nat, parent: Hash, hash: Hash, rootTxs: string,
      proof: seq<string>)
    returns (x: string, y: string)
    requires HexDigest(sha) && chain < |tips| && parent < U64 && tips[chain] < U64
    requires |proof| == Merkle.ProofLength(|tips|)
    requires MetadataOk(sha, |tips|, chain, parent, hash, Merkle.Root(sha, Leaves(tips)), rootTxs, proof)
    ensures parent == tips[chain] ||
            (x != y && sha(x) == sha(y)
             && x in Merkle.ClimbInputs(sha, BlockhashToString(parent), proof[1..|proof| - 1], chain)
             && y in Merkle.TreeInputs(sha, Leaves(tips)))
  {
    hide Merkle.Climb, Merkle.Root, Merkle.ClimbInputs, Merkle.TreeInputs, MetadataOk, Merkle.ProofLength;
    hide BlockhashToString, Leaves;
    ProofClimbs(sha, tips, chain, parent, hash, rootTxs, proof);
    x, y := Merkle.ClimbSound(sha, Leaves(tips), BlockhashToString(parent), proof[1..|proof| - 1], chain);
    BlockhashRoundTrip(parent);
    BlockhashRoundTrip(tips[chain]);
  }

  lemma ProofClimbs(sha: Hasher, tips: seq<Hash>, chain: nat, parent: Hash, hash: Hash, rootTxs: string, proof: seq<string>)
    requires HexDigest(sha) && chain < |tips| && parent < U64 && tips[chain] < U64
    requires |proof| == Merkle.ProofLength(|tips|)
    requires MetadataOk(sha, |tips|, chain, parent, hash, Merkle.Root(sha, Leaves(tips)), rootTxs, proof)
    ensures |proof| >= 2 && Merkle.FixedLength(sha) && chain < |Leaves(tips)| == Merkle.Pow2(|proof[1..|proof| - 1]|)
    ensures Leaves(tips)[chain] == BlockhashToString(tips[chain])
    ensures |BlockhashToString(parent)| == |BlockhashToString(tips[chain])|
    ensures Merkle.Climb(sha, BlockhashToString(parent), proof[1..|proof| - 1], chain) == Merkle.Root(sha, Leaves(tips))
  {
    hide Merkle.Climb, Merkle.Root, ChainOf, StringToBlockhash, BlockhashToString;
    BlockhashRoundTrip(parent);
    BlockhashRoundTrip(tips[chain]);
  }
}
