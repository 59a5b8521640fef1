/**
 * The order in which blocks reach commit_block.
 *
 * A commit pass goes chain by chain and from the end of each partial chain down, so it does not hand blocks over in
 * the order by next rank; and what two passes hand over one after the other can differ from what one pass does.
 */
module CommitOrder {
  import opened Prelude
  import opened Headers
  import opened Holdings
  import opened SearchTrees
  import opened BlockForest
  import opened BlockIndex
  import opened BlockSteps
  import opened BlockPaths
  import opened BlockStore
  import opened RankOrder
  import opened Protocol

  /** A pass comes to `a` sooner than to `b`: on an earlier chain, or further up the same one. */
  predicate Sooner(pool: Pool, a: Hash, b: Hash)
    requires a in pool && b in pool
  {
    pool[a].chain < pool[b].chain || (pool[a].chain == pool[b].chain && pool[a].nextRank > pool[b].nextRank)
  }

  /** `s` has exactly these blocks, each as soon as a pass comes to it. */
  ghost predicate HandsOver(pool: Pool, s: seq<Hash>, blocks: set<Hash>) {
    && (forall i :: 0 <= i < |s| ==> s[i] in pool)
    && (forall i, j :: 0 <= i < j < |s| ==> Sooner(pool, s[i], s[j]))
    && (forall h :: h in s <==> h in blocks)
  }

  // ---------- one chain ----------

  /** A chain from its genesis block up: next ranks climb. */
  ghost predicate Climbs(pool: Pool, p: seq<Hash>, c: nat) {
    && (forall i :: 0 <= i < |p| ==> p[i] in pool && pool[p[i]].chain == c)
    && (forall i, j :: 0 <= i < j < |p| ==> pool[p[i]].nextRank < pool[p[j]].nextRank)
  }

  lemma PartialIsClimb(pool: Pool, tip: Hash, t: nat)
    requires Linked(pool) && Ranked(pool) && tip in pool
    ensures Climbs(pool, Partial(pool, tip, t), pool[tip].chain)
  {
    var p := Partial(pool, tip, t);
    forall i | 0 <= i < |p| ensures p[i] in pool && pool[p[i]].chain == pool[tip].chain {
      PartialMember(pool, tip, t, i);
    }
    forall i, j | 0 <= i < j < |p| ensures pool[p[i]].nextRank < pool[p[j]].nextRank {
      PartialClimbs(pool, tip, t, i, j);
    }
  }

  /** What a log has more than a part of it at the front. */
  function Since(log: seq<Hash>, n: nat): seq<Hash> {
    if n <= |log| then log[n..] else []
  }

  /** The first block of a walk is on its chain and above all others. */
  lemma WalkFirst(pool: Pool, p: seq<Hash>, c: nat, rest: seq<Hash>, blocks: set<Hash>)
    requires p != [] && Climbs(pool, p, c) && HandsOver(pool, rest, blocks)
    requires forall h :: h in blocks ==> h in p[..|p| - 1]
    ensures HandsOver(pool, [p[|p| - 1]] + rest, blocks + {p[|p| - 1]})
  {
    var x := p[|p| - 1];
    var s := [x] + rest;
    forall i, j | 0 <= i < j < |s| ensures Sooner(pool, s[i], s[j]) {
      assert rest[j - 1] in blocks;
      if i == 0 {
        var k :| 0 <= k < |p| - 1 && p[..|p| - 1][k] == s[j];
        assert p[k] == s[j];
      } else {
        assert Sooner(pool, rest[i - 1], rest[j - 1]);
      }
    }
  }

  lemma ToCommitFront(pool: Pool, f: Forest, p: seq<Hash>, bar: nat, now: nat)
    requires p != []
    ensures var x := p[|p| - 1];
      ToCommit(pool, f, p, bar, now) == ToCommit(pool, f, p[..|p| - 1], bar, now) + if Committable(pool, f, x, bar, now) then {x} else {}
  {
    hide Committable;
    assert p == p[..|p| - 1] + [p[|p| - 1]];
  }

  /** The walk down one chain hands over what is to be committed there and has not been, from the end down. */
  lemma {:induction false} WalkHandsOver(pool: Pool, f: Forest, p: seq<Hash>, c: nat, bar: nat, now: nat, log: seq<Hash>)
    requires Climbs(pool, p, c)
    ensures var r := CommitWalk(pool, f, p, bar, now, log);
      log <= r && HandsOver(pool, Since(r, |log|), ToCommit(pool, f, p, bar, now) - Logged(log))
    decreases |p|
  {
    hide Committable, ToCommit, Climbs, HandsOver, Logged;
    var r := CommitWalk(pool, f, p, bar, now, log);
    if p == [] {
      WalkNothing(pool, f, bar, now, log);
      assert Since(r, |log|) == [];
    } else {
      var x, front := p[|p| - 1], p[..|p| - 1];
      var log1 := HandedOver(pool, f, x, bar, now, log);
      ClimbsFront(pool, p, c);
      WalkHandsOver(pool, f, front, c, bar, now, log1);
      ToCommitFront(pool, f, p, bar, now);
      WalkOne(pool, f, p, c, bar, now, log, r);
    }
  }

  lemma WalkNothing(pool: Pool, f: Forest, bar: nat, now: nat, log: seq<Hash>)
    ensures HandsOver(pool, [], ToCommit(pool, f, [], bar, now) - Logged(log))
  {
  }

  lemma ClimbsFront(pool: Pool, p: seq<Hash>, c: nat)
    requires Climbs(pool, p, c) && p != []
    ensures Climbs(pool, p[..|p| - 1], c) && p[|p| - 1] !in p[..|p| - 1]
  {
  }

  lemma WalkOne(pool: Pool, f: Forest, p: seq<Hash>, c: nat, bar: nat, now: nat, log: seq<Hash>, r: seq<Hash>)
    requires p != [] && Climbs(pool, p, c)
    requires var log1 := HandedOver(pool, f, p[|p| - 1], bar, now, log);
      log1 <= r && HandsOver(pool, Since(r, |log1|), ToCommit(pool, f, p[..|p| - 1], bar, now) - Logged(log1))
    ensures log <= r && HandsOver(pool, Since(r, |log|), ToCommit(pool, f, p, bar, now) - Logged(log))
  {
    hide Committable, ToCommit, HandsOver, Climbs;
    var x, front := p[|p| - 1], p[..|p| - 1];
    var todo := ToCommit(pool, f, front, bar, now);
    ToCommitFront(pool, f, p, bar, now);
    ClimbsFront(pool, p, c);
    FrontOnly(pool, f, front, bar, now);
    if Committable(pool, f, x, bar, now) && x !in log {
      OneMore(pool, p, c, log, r, todo);
    } else {
      assert ToCommit(pool, f, p, bar, now) - Logged(log) == todo - Logged(log);
    }
  }

  lemma OneMore(pool: Pool, p: seq<Hash>, c: nat, log: seq<Hash>, r: seq<Hash>, todo: set<Hash>)
    requires p != [] && Climbs(pool, p, c) && (forall h :: h in todo ==> h in p[..|p| - 1])
    requires var x := p[|p| - 1];
      x !in log && x !in todo && log + [x] <= r && HandsOver(pool, Since(r, |log| + 1), todo - Logged(log + [x]))
    ensures HandsOver(pool, Since(r, |log|), (todo + {p[|p| - 1]}) - Logged(log))
  {
    hide HandsOver, Climbs;
    var x := p[|p| - 1];
    assert Logged(log + [x]) == Logged(log) + {x};
    assert todo - Logged(log + [x]) == todo - Logged(log);
    assert Since(r, |log|) == [x] + Since(r, |log| + 1);
    WalkFirst(pool, p, c, Since(r, |log| + 1), todo - Logged(log));
    assert (todo + {x}) - Logged(log) == (todo - Logged(log)) + {x};
  }

  lemma FrontOnly(pool: Pool, f: Forest, p: seq<Hash>, bar: nat, now: nat)
    ensures forall h :: h in ToCommit(pool, f, p, bar, now) ==> h in p
  {
  }

  // ---------- a pass over all chains ----------

  /** All blocks of the one set come sooner than all of the other. */
  ghost predicate AllSooner(pool: Pool, a: set<Hash>, b: set<Hash>) {
    forall g, h :: g in a && h in b && g in pool && h in pool ==> Sooner(pool, g, h)
  }

  /** What is handed over for a later chain comes after what was handed over before. */
  lemma Later(pool: Pool, s: seq<Hash>, a: set<Hash>, t: seq<Hash>, b: set<Hash>)
    requires HandsOver(pool, s, a) && HandsOver(pool, t, b)
    requires AllSooner(pool, a, b)
    ensures HandsOver(pool, s + t, a + b)
  {
    var u := s + t;
    forall i, j | 0 <= i < j < |u| ensures Sooner(pool, u[i], u[j]) {
      if i < |s| <= j {
        assert s[i] in a && t[j - |s|] in b;
      } else if j < |s| {
        assert Sooner(pool, s[i], s[j]);
      } else {
        assert Sooner(pool, t[i - |s|], t[j - |s|]);
      }
    }
    forall h ensures h in u <==> h in a + b {
      assert h in u <==> h in s || h in t;
    }
  }

  /** The blocks to commit on the first i chains. */
  lemma UpToChains(pool: Pool, f: Forest, tips: seq<Hash>, t: nat, i: nat, bar: nat, now: nat)
    requires Linked(pool) && Ranked(pool) && TipsOk(pool, tips) && i <= |tips|
    ensures forall h :: h in ToCommitUpTo(pool, f, tips, t, i, bar, now) ==> h in pool && pool[h].chain < i
  {
    forall h | h in ToCommitUpTo(pool, f, tips, t, i, bar, now) ensures h in pool && pool[h].chain < i {
      var c :| 0 <= c < i && h in Partial(pool, tips[c], t);
      OnPartial(pool, tips[c], t, h);
    }
  }

  lemma OnPartial(pool: Pool, tip: Hash, t: nat, h: Hash)
    requires Linked(pool) && Ranked(pool) && tip in pool && h in Partial(pool, tip, t)
    ensures h in pool && pool[h].chain == pool[tip].chain
  {
    PartialIsClimb(pool, tip, t);
  }

  lemma LoggedSince(log: seq<Hash>, r: seq<Hash>)
    requires log <= r
    ensures Logged(r) == Logged(log) + Logged(Since(r, |log|))
  {
    assert r == log + Since(r, |log|);
  }

  lemma {:induction false} ChainsHandOver(pool: Pool, f: Forest, tips: seq<Hash>, t: nat, i: nat, bar: nat, now: nat,
      log: seq<Hash>)
    requires Linked(pool) && Ranked(pool) && TipsOk(pool, tips) && i <= |tips|
    ensures var r := CommitChains(pool, f, tips, t, i, bar, now, log);
      log <= r && HandsOver(pool, Since(r, |log|), ToCommitUpTo(pool, f, tips, t, i, bar, now) - Logged(log))
    decreases i
  {
    hide Linked, Ranked, TipsOk, Partial, CommitWalk, ToCommitUpTo;
    if i == 0 {
      assert Since(log, |log|) == [];
      UpToNone(pool, f, tips, t, bar, now);
    } else {
      ChainsHandOver(pool, f, tips, t, i - 1, bar, now, log);
      ChainHandsOver(pool, f, tips, t, i - 1, bar, now, log, CommitChains(pool, f, tips, t, i - 1, bar, now, log));
    }
  }

  lemma ChainHandsOver(pool: Pool, f: Forest, tips: seq<Hash>, t: nat, i: nat, bar: nat, now: nat, log: seq<Hash>,
      r0: seq<Hash>)
    requires Linked(pool) && Ranked(pool) && TipsOk(pool, tips) && i < |tips| && log <= r0
    requires HandsOver(pool, Since(r0, |log|), ToCommitUpTo(pool, f, tips, t, i, bar, now) - Logged(log))
    ensures var r := CommitWalk(pool, f, Partial(pool, tips[i], t), bar, now, r0);
      log <= r && HandsOver(pool, Since(r, |log|), ToCommitUpTo(pool, f, tips, t, i + 1, bar, now) - Logged(log))
  {
    hide Linked, Ranked, TipsOk, Partial, CommitWalk, ToCommit, ToCommitUpTo, Climbs, HandsOver, AllSooner;
    var p := Partial(pool, tips[i], t);
    ChainReady(pool, f, tips, t, i, bar, now);
    WalkHandsOver(pool, f, p, i, bar, now, r0);
    UpToNext(pool, f, tips, t, i, bar, now);
    JoinParts(pool, log, r0, CommitWalk(pool, f, p, bar, now, r0), ToCommitUpTo(pool, f, tips, t, i, bar, now),
        ToCommit(pool, f, p, bar, now));
  }

  lemma ChainReady(pool: Pool, f: Forest, tips: seq<Hash>, t: nat, i: nat, bar: nat, now: nat)
    requires Linked(pool) && Ranked(pool) && TipsOk(pool, tips) && i < |tips|
    ensures Climbs(pool, Partial(pool, tips[i], t), i)
    ensures AllSooner(pool, ToCommitUpTo(pool, f, tips, t, i, bar, now), ToCommit(pool, f, Partial(pool, tips[i], t), bar, now))
  {
    PartialIsClimb(pool, tips[i], t);
    UpToChains(pool, f, tips, t, i, bar, now);
    OnChain(pool, f, Partial(pool, tips[i], t), i, bar, now);
    hide Linked, Ranked, Climbs, ToCommit, ToCommitUpTo, Partial;
  }

  /** What has been handed over, and what is handed over for one chain more. */
  lemma JoinParts(pool: Pool, log: seq<Hash>, r0: seq<Hash>, r: seq<Hash>, was: set<Hash>, here: set<Hash>)
    requires log <= r0 <= r && AllSooner(pool, was, here)
    requires HandsOver(pool, Since(r0, |log|), was - Logged(log)) && HandsOver(pool, Since(r, |r0|), here - Logged(r0))
    ensures HandsOver(pool, Since(r, |log|), (was + here) - Logged(log))
  {
    Later(pool, Since(r0, |log|), was - Logged(log), Since(r, |r0|), here - Logged(r0));
    HandedLogged(pool, Since(r0, |log|), was - Logged(log));
    LoggedSince(log, r0);
    hide HandsOver, AllSooner, Logged;
    assert Since(r, |log|) == Since(r0, |log|) + Since(r, |r0|);
    assert (was - Logged(log)) + (here - Logged(r0)) == (was + here) - Logged(log);
  }

  lemma HandedLogged(pool: Pool, s: seq<Hash>, blocks: set<Hash>)
    requires HandsOver(pool, s, blocks)
    ensures Logged(s) == blocks
  {
  }

  lemma OnChain(pool: Pool, f: Forest, p: seq<Hash>, c: nat, bar: nat, now: nat)
    requires Climbs(pool, p, c)
    ensures forall h :: h in ToCommit(pool, f, p, bar, now) ==> h in pool && pool[h].chain == c
  {
    FrontOnly(pool, f, p, bar, now);
  }

  /** The blocks of a view that a pass commits, whether or not they have been before. */
  ghost function Committing(pool: Pool, f: Forest, tips: seq<Hash>, t: nat, now: nat): set<Hash>
    reads f.nodes`isFull, f.nodes`timeMined
  {
    if Deep(pool, tips, t) then ToCommitUpTo(pool, f, tips, t, |tips|, Bar(pool, tips, t), now) else {}
  }

  /**
   * What a pass appends to the log: exactly the blocks that it commits and that were not handed over before, chain
   * by chain, and on each chain from the highest next rank down.
   */
  lemma PassHandsOver(pool: Pool, f: Forest, tips: seq<Hash>, t: nat, now: nat, log: seq<Hash>)
    requires Linked(pool) && Ranked(pool) && TipsOk(pool, tips)
    ensures var r := PassLog(pool, f, tips, t, now, log);
      log <= r && HandsOver(pool, Since(r, |log|), Committing(pool, f, tips, t, now) - Logged(log))
  {
    if Deep(pool, tips, t) {
      ChainsHandOver(pool, f, tips, t, |tips|, Bar(pool, tips, t), now, log);
    } else {
      assert Since(log, |log|) == [];
    }
  }

  /**
   * The clock: a block of a partial chain that was not handed over before is handed over exactly if it is full, ranks
   * below the bar, is no genesis block and was mined before now by its miner's clock.
   */
  lemma CommittedOnTime(pool: Pool, f: Forest, tips: seq<Hash>, t: nat, now: nat, log: seq<Hash>, h: Hash, c: nat)
    requires Linked(pool) && Ranked(pool) && TipsOk(pool, tips) && Deep(pool, tips, t)
    requires h !in log && c < |tips| && h in Partial(pool, tips[c], t) && h in f.at && f.at[h] in f.nodes
    ensures h in PassLog(pool, f, tips, t, now, log) <==>
            f.at[h].isFull && f.at[h].timeMined < now && !IsGenesis(pool, h) && NextRank(pool, h) < Bar(pool, tips, t)
  {
    var r := PassLog(pool, f, tips, t, now, log);
    PassHandsOver(pool, f, tips, t, now, log);
    CommitTimeIs(pool, f, tips, t, now, h);
    hide Linked, Ranked, TipsOk, PassLog, Partial, Bar, ToCommitUpTo, HandsOver;
    LoggedSince(log, r);
    HandedLogged(pool, Since(r, |log|), Committing(pool, f, tips, t, now) - Logged(log));
    assert h in r <==> h in Logged(r);
  }

  // ---------- when that is the order by next rank ----------

  ghost predicate Ascends(pool: Pool, s: seq<Hash>)
    requires forall i :: 0 <= i < |s| ==> s[i] in pool
  {
    forall i, j :: 0 <= i < j < |s| ==> Before(pool, s[i], s[j])
  }

  /** At most one block on each chain, and next ranks do not fall from one chain to a later one. */
  ghost predicate OneEach(pool: Pool, blocks: set<Hash>) {
    forall g, h :: g in blocks && h in blocks && g in pool && h in pool && g != h ==>
      pool[g].chain != pool[h].chain && (pool[g].chain < pool[h].chain ==> pool[g].nextRank <= pool[h].nextRank)
  }

  lemma HandedInOrder(pool: Pool, s: seq<Hash>, blocks: set<Hash>)
    requires HandsOver(pool, s, blocks)
    ensures Ascends(pool, s) <==> OneEach(pool, blocks)
  {
    if Ascends(pool, s) {
      forall g, h | g in blocks && h in blocks && g in pool && h in pool && g != h
        ensures pool[g].chain != pool[h].chain && (pool[g].chain < pool[h].chain ==> pool[g].nextRank <= pool[h].nextRank)
      {
        var i :| 0 <= i < |s| && s[i] == g;
        var j :| 0 <= j < |s| && s[j] == h;
        if i < j {
          assert Sooner(pool, s[i], s[j]) && Before(pool, s[i], s[j]);
        } else {
          assert Sooner(pool, s[j], s[i]) && Before(pool, s[j], s[i]);
        }
      }
    }
    if OneEach(pool, blocks) {
      forall i, j | 0 <= i < j < |s| ensures Before(pool, s[i], s[j]) {
        assert Sooner(pool, s[i], s[j]) && s[i] in blocks && s[j] in blocks;
      }
    }
  }

  /**
   * Exactly when a pass hands blocks over in the order by (next rank, chain): when it commits at most one new block
   * on each chain, and their next ranks do not fall along the chains.
   */
  lemma PassInOrder(pool: Pool, f: Forest, tips: seq<Hash>, t: nat, now: nat, log: seq<Hash>)
    requires Linked(pool) && Ranked(pool) && TipsOk(pool, tips)
    ensures var s := Since(PassLog(pool, f, tips, t, now, log), |log|);
      && (forall i :: 0 <= i < |s| ==> s[i] in pool)
      && (Ascends(pool, s) <==> OneEach(pool, Committing(pool, f, tips, t, now) - Logged(log)))
  {
    PassHandsOver(pool, f, tips, t, now, log);
    hide Linked, Ranked, PassLog, Committing, OneEach, Ascends;
    HandedInOrder(pool, Since(PassLog(pool, f, tips, t, now, log), |log|), Committing(pool, f, tips, t, now) - Logged(log));
  }

  // ---------- one pass or two ----------

  lemma HandedDistinct(pool: Pool, s: seq<Hash>, blocks: set<Hash>)
    requires HandsOver(pool, s, blocks)
    ensures Distinct(s) && |s| == |blocks|
  {
    forall i, j | 0 <= i < j < |s| ensures s[i] != s[j] { assert Sooner(pool, s[i], s[j]); }
    DistinctSize(s);
    HandedLogged(pool, s, blocks);
  }

  /** There is only one such order. */
  lemma {:induction false} HandedUnique(pool: Pool, s: seq<Hash>, t: seq<Hash>, blocks: set<Hash>)
    requires HandsOver(pool, s, blocks) && HandsOver(pool, t, blocks)
    ensures s == t
    decreases |s|
  {
    HandedDistinct(pool, s, blocks);
    HandedDistinct(pool, t, blocks);
    if s != [] {
      SameSoonest(pool, s, t, blocks);
      HandedRest(pool, s, blocks);
      HandedRest(pool, t, blocks);
      HandedUnique(pool, s[1..], t[1..], blocks - {s[0]});
      assert s == [s[0]] + s[1..] && t == [t[0]] + t[1..];
    }
  }

  lemma SameSoonest(pool: Pool, s: seq<Hash>, t: seq<Hash>, blocks: set<Hash>)
    requires HandsOver(pool, s, blocks) && HandsOver(pool, t, blocks) && s != [] && t != []
    ensures s[0] == t[0]
  {
    assert s[0] in s && t[0] in t;
    var i :| 0 <= i < |t| && t[i] == s[0];
    var j :| 0 <= j < |s| && s[j] == t[0];
    assert i > 0 ==> Sooner(pool, t[0], t[i]);
    assert j > 0 ==> Sooner(pool, s[0], s[j]);
  }

  lemma HandedRest(pool: Pool, s: seq<Hash>, blocks: set<Hash>)
    requires HandsOver(pool, s, blocks) && s != []
    ensures HandsOver(pool, s[1..], blocks - {s[0]})
  {
    var r := s[1..];
    forall i, j | 0 <= i < j < |r| ensures Sooner(pool, r[i], r[j]) { assert Sooner(pool, s[i + 1], s[j + 1]); }
    forall h ensures h in r <==> h in blocks - {s[0]} {
      if h in r {
        var i :| 0 <= i < |r| && r[i] == h;
        assert s[i + 1] == h && Sooner(pool, s[0], s[i + 1]);
      }
    }
  }

  lemma SplitOrWhole(pool: Pool, s1: seq<Hash>, s2: seq<Hash>, s: seq<Hash>, a: set<Hash>, b: set<Hash>)
    requires a !! b && HandsOver(pool, s1, a) && HandsOver(pool, s2, b) && HandsOver(pool, s, a + b)
    ensures s1 + s2 == s <==> AllSooner(pool, a, b)
    ensures |s1 + s2| == |s|
  {
    HandedDistinct(pool, s1, a);
    HandedDistinct(pool, s2, b);
    HandedDistinct(pool, s, a + b);
    if AllSooner(pool, a, b) {
      Later(pool, s1, a, s2, b);
      HandedUnique(pool, s1 + s2, s, a + b);
    }
    if s1 + s2 == s {
      forall g, h | g in a && h in b && g in pool && h in pool ensures Sooner(pool, g, h) {
        var i :| 0 <= i < |s1| && s1[i] == g;
        var j :| 0 <= j < |s2| && s2[j] == h;
        assert s[i] == g && s[|s1| + j] == h;
      }
    }
  }

  lemma AppendedParts(log: seq<Hash>, l1: seq<Hash>, l12: seq<Hash>, l2: seq<Hash>)
    requires log <= l1 <= l12 && log <= l2
    ensures Since(l12, |log|) == Since(l1, |log|) + Since(l12, |l1|)
    ensures l12 == l2 <==> Since(l12, |log|) == Since(l2, |log|)
    ensures |l12| == |l2| <==> |Since(l12, |log|)| == |Since(l2, |log|)|
  {
    assert l12 == log + Since(l12, |log|) && l2 == log + Since(l2, |log|);
  }

  /**
   * Two passes, or only the later one of them.  Both ways the same blocks have been handed over, each once; and in
   * the same order exactly if all that the first pass hands over comes sooner in the later pass than the rest.
   * Otherwise neither log is a prefix of the other.
   */
  lemma TwoPassesOrOne(pool: Pool, f: Forest, small: seq<Hash>, tips: seq<Hash>, t: nat, soon: nat, now: nat, log: seq<Hash>)
    requires Linked(pool) && Ranked(pool) && TipsOk(pool, small) && TipsOk(pool, tips)
    requires Committing(pool, f, small, t, soon) <= Committing(pool, f, tips, t, now)
    ensures var first, all := Committing(pool, f, small, t, soon) - Logged(log), Committing(pool, f, tips, t, now) - Logged(log);
      var two, one := PassLog(pool, f, tips, t, now, PassLog(pool, f, small, t, soon, log)), PassLog(pool, f, tips, t, now, log);
      && Logged(two) == Logged(one) && |two| == |one|
      && (two == one <==> AllSooner(pool, first, all - first))
      && (two != one ==> !Comparable(two, one))
  {
    hide Linked, Ranked, TipsOk, PassLog, Committing, HandsOver, AllSooner, Logged;
    var l1 := PassLog(pool, f, small, t, soon, log);
    var l12, l2 := PassLog(pool, f, tips, t, now, l1), PassLog(pool, f, tips, t, now, log);
    PassHandsOver(pool, f, small, t, soon, log);
    PassHandsOver(pool, f, tips, t, now, l1);
    PassHandsOver(pool, f, tips, t, now, log);
    TwoLogs(pool, log, l1, l12, l2, Committing(pool, f, small, t, soon), Committing(pool, f, tips, t, now));
  }

  lemma TwoLogs(pool: Pool, log: seq<Hash>, l1: seq<Hash>, l12: seq<Hash>, l2: seq<Hash>, c1: set<Hash>, c2: set<Hash>)
    requires log <= l1 <= l12 && log <= l2 && c1 <= c2 && HandsOver(pool, Since(l1, |log|), c1 - Logged(log))
    requires HandsOver(pool, Since(l12, |l1|), c2 - Logged(l1)) && HandsOver(pool, Since(l2, |log|), c2 - Logged(log))
    ensures var first, all := c1 - Logged(log), c2 - Logged(log);
      && Logged(l12) == Logged(l2) && |l12| == |l2|
      && (l12 == l2 <==> AllSooner(pool, first, all - first))
  {
    hide HandsOver, AllSooner, Logged;
    var first, all := c1 - Logged(log), c2 - Logged(log);
    LoggedSince(log, l1);
    LoggedSince(l1, l12);
    LoggedSince(log, l2);
    HandedLogged(pool, Since(l1, |log|), first);
    HandedLogged(pool, Since(l12, |l1|), c2 - Logged(l1));
    HandedLogged(pool, Since(l2, |log|), all);
    assert c2 - Logged(l1) == all - first && first + (all - first) == all;
    SplitOrWhole(pool, Since(l1, |log|), Since(l12, |l1|), Since(l2, |log|), first, all - first);
    AppendedParts(log, l1, l12, l2);
  }

  /** With partial chains that only grow, a later pass commits all that an earlier one does. */
  lemma GrowingCommits(pool: Pool, f: Forest, small: seq<Hash>, tips: seq<Hash>, t: nat, soon: nat, now: nat)
    requires Linked(pool) && Ranked(pool) && TipsOk(pool, small) && Ready(pool, tips, t) && Grows(pool, small, tips, t)
    requires soon <= now
    ensures Committing(pool, f, small, t, soon) <= Committing(pool, f, tips, t, now)
  {
    if Deep(pool, small, t) {
      BarGrows(pool, small, tips, t);
      var bar, later := Bar(pool, small, t), Bar(pool, tips, t);
      forall h | h in Committing(pool, f, small, t, soon) ensures h in Committing(pool, f, tips, t, now) {
        var c :| 0 <= c < |small| && h in Partial(pool, small[c], t) && Committable(pool, f, h, bar, soon);
        assert Partial(pool, small[c], t) <= Partial(pool, tips[c], t);
        assert h in Partial(pool, tips[c], t) && Committable(pool, f, h, later, now);
      }
    }
  }

  /**
   * So a store that makes a pass more than another one hands blocks over in a different order as soon as the two
   * passes both commit on some chain, the later one further up: though views, blocks and clocks are the same.
   */
  lemma SameChainTwice(pool: Pool, f: Forest, small: seq<Hash>, tips: seq<Hash>, t: nat, soon: nat, now: nat,
      log: seq<Hash>, a: Hash, b: Hash)
    requires Linked(pool) && Ranked(pool) && TipsOk(pool, small) && Ready(pool, tips, t) && Grows(pool, small, tips, t)
    requires soon <= now && a in pool && b in pool && pool[a].chain == pool[b].chain && pool[a].nextRank < pool[b].nextRank
    requires a in Committing(pool, f, small, t, soon) - Logged(log)
    requires b in Committing(pool, f, tips, t, now) - Committing(pool, f, small, t, soon) - Logged(log)
    ensures !Comparable(PassLog(pool, f, tips, t, now, PassLog(pool, f, small, t, soon, log)), PassLog(pool, f, tips, t, now, log))
  {
    GrowingCommits(pool, f, small, tips, t, soon, now);
    TwoPassesOrOne(pool, f, small, tips, t, soon, now, log);
    hide Linked, Ranked, TipsOk, PassLog, Committing, Logged, Deep, Grows;
    assert !Sooner(pool, a, b);
  }

  // ---------- two stores that differ ----------

  /** One chain of four blocks: block k has depth and next rank k. */
  ghost predicate IsLine(pool: Pool) {
    && pool.Keys == {0, 1, 2, 3} && pool[0] == Header(0, 0, 0, 0, 0, [])
    && pool[1] == Header(0, 0, 1, 0, 1, [0]) && pool[2] == Header(0, 1, 2, 1, 2, [1]) && pool[3] == Header(0, 2, 3, 2, 3, [2])
  }

  lemma LineOk(pool: Pool)
    requires IsLine(pool)
    ensures Linked(pool) && Ranked(pool) && TipsOk(pool, [2]) && TipsOk(pool, [3])
  {
    assert forall h :: h in pool ==> h == 0 || h == 1 || h == 2 || h == 3;
  }

  lemma LinePaths(pool: Pool)
    requires IsLine(pool)
    ensures Partial(pool, 2, 0) == [0, 1, 2] && Partial(pool, 3, 0) == [0, 1, 2, 3]
  {
    assert Path(pool, 0) == [0];
    assert Path(pool, 1) == Path(pool, 0) + [1];
    assert Path(pool, 2) == Path(pool, 1) + [2];
    assert Path(pool, 3) == Path(pool, 2) + [3];
  }

  lemma LineBar(pool: Pool, tip: Hash, h: Hash)
    requires IsLine(pool) && Partial(pool, tip, 0) != [] && Last(Partial(pool, tip, 0)) == h && h in pool
    ensures Bar(pool, [tip], 0) == pool[h].nextRank && Deep(pool, [tip], 0)
  {
    assert [tip][..0] == [];
    assert Bar(pool, [], 0) == U32 - 1;
    assert pool[h].nextRank < U32 - 1;
  }

  lemma LineCommits(pool: Pool, f: Forest, tip: Hash, now: nat, h: Hash)
    requires IsLine(pool) && (tip == 2 || tip == 3) && (h == 1 || h == 2)
    requires h in f.at && f.at[h] in f.nodes && f.at[h].isFull && f.at[h].timeMined < now
    ensures h in Committing(pool, f, [tip], 0, now) <==> h < tip
  {
    LinePaths(pool);
    LineBar(pool, tip, tip);
    hide Path, Bar;
    assert h in Partial(pool, [tip][0], 0) by { assert Partial(pool, tip, 0)[h] == h; }
    hide Partial;
    assert Committable(pool, f, h, Bar(pool, [tip], 0), now) <==> h < tip;
  }

  /**
   * An input: blocks 1 and 2 of one chain are full.  A store that makes a pass when block 2 is the end of the chain
   * and another one when block 3 is, and a store that only makes the second pass, have the same blocks and the same
   * view, and hand blocks 1 and 2 over in different orders.
   */
  lemma StoresDiffer(pool: Pool, f: Forest, soon: nat, now: nat)
    requires IsLine(pool) && soon <= now
    requires forall h :: h == 1 || h == 2 ==> h in f.at && f.at[h] in f.nodes && f.at[h].isFull && f.at[h].timeMined < soon
    ensures !Comparable(PassLog(pool, f, [3], 0, now, PassLog(pool, f, [2], 0, soon, [])), PassLog(pool, f, [3], 0, now, []))
  {
    LineOk(pool);
    LinePaths(pool);
    LineBar(pool, 3, 3);
    LineCommits(pool, f, 2, soon, 1);
    LineCommits(pool, f, 2, soon, 2);
    LineCommits(pool, f, 3, now, 2);
    hide Path, Bar, Committing, PassLog;
    assert Grows(pool, [2], [3], 0) by { assert Partial(pool, 2, 0) <= Partial(pool, 3, 0); }
    SameChainTwice(pool, f, [2], [3], 0, soon, now, [], 1, 2);
  }

  // ---------- what all stores agree on ----------

  lemma {:induction false} SameElements(s: seq<Hash>, t: seq<Hash>)
    requires Distinct(s) && Distinct(t) && Logged(s) == Logged(t)
    ensures multiset(s) == multiset(t)
  {
    forall h ensures multiset(s)[h] == multiset(t)[h] {
      OnceEach(s, h);
      OnceEach(t, h);
      assert h in Logged(s) <==> h in Logged(t);
    }
  }

  lemma {:induction false} OnceEach(s: seq<Hash>, h: Hash)
    requires Distinct(s)
    ensures multiset(s)[h] == if h in s then 1 else 0
    decreases |s|
  {
    if s != [] {
      var n := |s| - 1;
      OnceEach(s[..n], h);
      assert s == s[..n] + [s[n]];
      assert s[n] !in s[..n];
    }
  }

  /** Stores that have committed the same blocks have handed over the same blocks, each once, in whatever order. */
  lemma StoresHandOverSame(x: Blockchain, y: Blockchain)
    requires x.Valid() && y.Valid() && x.View().committed == y.View().committed
    ensures Distinct(x.log) && Distinct(y.log) && multiset(x.log) == multiset(y.log)
  {
    SameElements(x.log, y.log);
  }
}
