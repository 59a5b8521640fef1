/**
 * What holds in every reachable state of the timed network: which promises can conflict, and how old a transaction
 * is when a conflict ends its ageing.
 */
module AgeingSafety {
  import opened Prelude
  import opened Ageing
  import opened Turns
  import opened AgeingNetwork
  import opened AgeingInvariant

  // ---------- commits ----------

  /** Commits of received blocks never make a node forget a key, whatever happens between check and commit. */
  lemma ReceivedBlocksReopenNothing(s: Tables, ops: seq<Op>, tx: Tx, rank: nat, lastRank: nat, at: int, d: int,
      discard: nat)
    requires BlockTxOk(s, tx, rank, lastRank, at, d, discard)
    ensures !Reopens(After(s, ops), tx)
  {
    ReceivedBlocksAreInTurn(s, ops, tx, rank, lastRank, at, d, discard);
  }

  // ---------- conflicting promises ----------

  /**
   * With delays of at most d and a threshold of at least d, two promises of one sender and number carry the
   * same transaction exactly if the number is written the same way in both.
   */
  lemma NoConflictingPromises(net: Net, at: int, d: int, count: nat, a: At, b: At)
    requires Reachable(net, at, d, count) && 0 <= d <= at
    requires a in net.promised && b in net.promised && a.1.from == b.1.from && a.1.num == b.1.num
    ensures net.promised[a].tx == net.promised[b].tx <==> a.1.spelling == b.1.spelling
  {
    ReachableOk(net, at, d, count);
    assert Early(Alive(net), d, a, b) && Early(Alive(net), d, b, a);
  }

  /** If numbers are written as they are printed, no two nodes promise different transactions of one sender and number. */
  lemma NoConflictWhenPrinted(net: Net, at: int, d: int, count: nat, a: At, b: At)
    requires Reachable(net, at, d, count) && 0 <= d <= at
    requires forall c :: c in net.accepted ==> c.1.spelling == 0
    requires a in net.promised && b in net.promised && a.1.from == b.1.from && a.1.num == b.1.num
    ensures net.promised[a].tx == net.promised[b].tx
  {
    ReachableOk(net, at, d, count);
    NoConflictingPromises(net, at, d, count, a, b);
  }

  /** With a threshold of at least 2d, nobody even starts ageing another transaction of a promised key. */
  lemma PromisedIsAlone(net: Net, at: int, d: int, count: nat, a: At, b: At)
    requires Reachable(net, at, d, count) && 0 <= d && 2 * d <= at
    requires a in net.promised && b in net.accepted && a.1 == b.1
    ensures net.promised[a].tx == net.accepted[b].tx
  {
    ReachableOk(net, at, d, count);
    assert Early(Alive(net), d, a, b) && Near(Alive(net), d, a, b);
  }

  // ---------- the threshold AT - 2D ----------

  /** By time t, node m has seen `tx`, or else t is not over yet. */
  predicate SeenBy(net: Net, m: nat, tx: Tx, t: int) {
    if (m, tx) in net.seen then net.seen[(m, tx)] <= t else net.now <= t
  }

  /**
   * Promise `a` was made although the ageing of the same transaction was ended at node n, after the age g; the
   * promising node saw the disturbing transaction no later than `late` after node n did.  Node n aged it as a key that
   * was not promised there.
   */
  ghost predicate Disturbed(net: Net, a: At, n: nat, g: int, late: int) {
    && a in net.promised && n < |net.nodes| && a.1 in net.nodes[n].aged && (n, a.1) in net.ended
    && (n, a.1) !in net.again
    && net.nodes[n].aged[a.1].tx == net.promised[a].tx
    && g == net.nodes[n].aged[a.1].end - net.nodes[n].aged[a.1].start
    && SeenBy(net, a.0, net.ended[(n, a.1)], net.nodes[n].aged[a.1].end + late)
  }

  /** The age recorded where a promised transaction was disturbed: what is missing to AT - D is the lateness at least. */
  lemma RecordedAge(net: Net, at: int, d: int, count: nat, a: At, n: nat, g: int, late: int)
    requires Reachable(net, at, d, count) && d >= 0 && Disturbed(net, a, n, g, late)
    ensures g + late + d > at && g >= 0
  {
    hide NetOk, Reachable, Disturbed;
    ReachableOk(net, at, d, count);
    DisturbedAlive(net, a, n, g, late);
    DisturbedAge(Alive(net), at, d, a, n, g, late);
  }

  lemma DisturbedAlive(net: Net, a: At, n: nat, g: int, late: int)
    requires Disturbed(net, a, n, g, late)
    ensures Disturbed(Alive(net), a, n, g, late)
  {
  }

  lemma DisturbedAge(net: Net, at: int, d: int, a: At, n: nat, g: int, late: int)
    requires NetOk(net, at, d) && Disturbed(net, a, n, g, late)
    ensures g + late + d > at && g >= 0
  {
    var x := (a.0, net.ended[(n, a.1)]);
    assert TablesOk(net, n) && EndedBy(net, n, a.1);
    assert Near(net, d, a, (n, a.1));
    if x in net.seen { assert Unaware(net, a, x); }
  }

  /**
   * The threshold AT - 2D: if the promising node saw the disturbing transaction at most D after the disturbed
   * node, the disturbed node recorded an age beyond AT - 2D, and demands the full suffix.
   */
  lemma ThresholdIsJustified(net: Net, at: int, d: int, count: nat, a: At, n: nat, g: int, discard: nat)
    requires Reachable(net, at, d, count) && d >= 0 && Disturbed(net, a, n, g, d)
    ensures g > at - 2 * d && RequiredSuffix(net.nodes[n].aged[a.1], at, d, discard) == discard
  {
    RecordedAge(net, at, d, count, a, n, g, d);
  }
}
