/**
 * Walking up the parent pointers of a main tree, and what a commit pass does on the way.
 */
module BlockPaths {
  import opened Prelude
  import opened Headers
  import opened Holdings
  import opened SearchTrees
  import opened BlockForest
  import opened BlockLinks
  import opened BlockIndex
  import opened BlockSteps
  import opened RankOrder
  import opened Protocol

  /** A node of a main tree, seen from below. */
  ghost predicate OnMain(pool: Pool, f: Forest, n: Node) {
    n in f.nodes && n.hash in pool && Anchored(pool, f.held, n.hash)
  }

  /** One parent pointer up is one block up the path. */
  lemma UpOne(pool: Pool, f: Forest, n: Node)
    requires ForestOk(pool, f) && ParentsSpell(pool, f) && OnMain(pool, f, n)
    ensures pool[n.hash].depth == 0 ==> n.parent == null
    ensures pool[n.hash].depth > 0 ==> n.parent != null && OnMain(pool, f, n.parent) && n.parent.hash == pool[n.hash].parent
    ensures |Path(pool, n.hash)| == pool[n.hash].depth + 1
    ensures pool[n.hash].depth > 0 ==> Path(pool, n.parent.hash) == Path(pool, n.hash)[..pool[n.hash].depth]
  {
    PathShape(pool, n.hash);
    assert n.parent == ParentOf(pool, f, n);
    if pool[n.hash].depth > 0 {
      PathParent(pool, n.hash);
    } else {
      hide ForestOk, Path;
    }
  }

  /** The walk from r is at node n after k steps. */
  ghost predicate WalkedTo(pool: Pool, f: Forest, r: Node, k: nat, n: Node?) {
    var p := Path(pool, r.hash);
    if n == null then k == |p| else k < |p| && OnMain(pool, f, n) && Path(pool, n.hash) == p[..|p| - k]
  }

  lemma WalkOn(pool: Pool, f: Forest, r: Node, k: nat, n: Node)
    requires ForestOk(pool, f) && ParentsSpell(pool, f) && WalkedTo(pool, f, r, k, n)
    ensures WalkedTo(pool, f, r, k + 1, n.parent)
  {
    UpOne(pool, f, n);
    hide ForestOk, ParentsSpell, Path, OnMain;
    Shorter(Path(pool, r.hash), |Path(pool, r.hash)| - k, pool[n.hash].depth);
  }

  lemma Shorter<T>(p: seq<T>, m: nat, j: nat)
    requires j <= m <= |p|
    ensures p[..m][..j] == p[..j] && |p[..m]| == m
  {
  }

  /** The node after the last t blocks of a chain, or null if the chain is too short: where the partial chain ends. */
  method Discard(ghost pool: Pool, ghost f: Forest, n: Node, t: nat) returns (r: Node?)
    requires ForestOk(pool, f) && ParentsSpell(pool, f) && OnMain(pool, f, n)
    ensures r == null <==> Partial(pool, n.hash, t) == []
    ensures r != null ==> OnMain(pool, f, r) && Path(pool, r.hash) == Partial(pool, n.hash, t)
  {
    hide ForestOk, ParentsSpell, OnMain, Path;
    r := n;
    var count := 0;
    assert Path(pool, n.hash)[..|Path(pool, n.hash)|] == Path(pool, n.hash);
    while r != null && count < t
      invariant count <= t && WalkedTo(pool, f, n, count, r)
      decreases t - count
    {
      WalkOn(pool, f, n, count, r);
      r := r.parent;
      count := count + 1;
    }
  }

  lemma EndOfPath(pool: Pool, f: Forest, n: Node, t: nat, r: Node)
    requires Path(pool, r.hash) == Partial(pool, n.hash, t)
    ensures EndRank(pool, n.hash, t) == NextRank(pool, r.hash)
  {
  }

  lemma BarNext(pool: Pool, tips: seq<Hash>, t: nat, i: nat)
    requires i < |tips|
    ensures Bar(pool, tips[..i + 1], t) ==
      (var rest := Bar(pool, tips[..i], t);
      if Partial(pool, tips[i], t) != [] && EndRank(pool, tips[i], t) < rest then EndRank(pool, tips[i], t) else rest)
  {
    assert tips[..i + 1][..i] == tips[..i];
  }

  // ---------- commits ----------

  /** A commit pass with this bar hands h to commit_block, unless it did so before. */
  ghost predicate Committable(pool: Pool, f: Forest, h: Hash, bar: nat, now: nat)
    reads f.nodes`isFull, f.nodes`timeMined
  {
    h in f.at && f.at[h] in f.nodes && f.at[h].isFull && !IsGenesis(pool, h) && NextRank(pool, h) < bar && f.at[h].timeMined < now
  }

  ghost function ToCommit(pool: Pool, f: Forest, p: seq<Hash>, bar: nat, now: nat): set<Hash>
    reads f.nodes`isFull, f.nodes`timeMined
  {
    set h | h in p && Committable(pool, f, h, bar, now)
  }

  /** The commit log after one more block has been visited. */
  ghost function HandedOver(pool: Pool, f: Forest, h: Hash, bar: nat, now: nat, log: seq<Hash>): seq<Hash>
    reads f.nodes`isFull, f.nodes`timeMined
  {
    if Committable(pool, f, h, bar, now) && h !in log then log + [h] else log
  }

  /** The commit log after a walk down to the start of the path, from its end. */
  ghost function CommitWalk(pool: Pool, f: Forest, p: seq<Hash>, bar: nat, now: nat, log: seq<Hash>): seq<Hash>
    reads f.nodes`isFull, f.nodes`timeMined
    decreases |p|
  {
    if p == [] then log else CommitWalk(pool, f, p[..|p| - 1], bar, now, HandedOver(pool, f, p[|p| - 1], bar, now, log))
  }

  /** The commit log after the first i chains. */
  ghost function CommitChains(pool: Pool, f: Forest, tips: seq<Hash>, t: nat, i: nat, bar: nat, now: nat,
      log: seq<Hash>): seq<Hash>
    requires i <= |tips|
    reads f.nodes`isFull, f.nodes`timeMined
    decreases i
  {
    if i == 0 then log
    else CommitWalk(pool, f, Partial(pool, tips[i - 1], t), bar, now, CommitChains(pool, f, tips, t, i - 1, bar, now, log))
  }

  /** The commit log after a pass: chain by chain, each partial chain from its end to the genesis block. */
  ghost function PassLog(pool: Pool, f: Forest, tips: seq<Hash>, t: nat, now: nat, log: seq<Hash>): seq<Hash>
    reads f.nodes`isFull, f.nodes`timeMined
  {
    if Deep(pool, tips, t) then CommitChains(pool, f, tips, t, |tips|, Bar(pool, tips, t), now, log) else log
  }

  lemma CommitWalkStep(pool: Pool, f: Forest, p: seq<Hash>, m: nat, bar: nat, now: nat, log: seq<Hash>)
    requires m < |p|
    ensures CommitWalk(pool, f, p[..m + 1], bar, now, log)
      == CommitWalk(pool, f, p[..m], bar, now, HandedOver(pool, f, p[m], bar, now, log))
  {
    assert p[..m + 1][..m] == p[..m] && p[..m + 1][m] == p[m];
    hide HandedOver;
  }

  lemma CommitWalkNone(pool: Pool, f: Forest, p: seq<Hash>, bar: nat, now: nat, log: seq<Hash>)
    ensures CommitWalk(pool, f, p[..0], bar, now, log) == log && p[..|p|] == p
  {
  }

  lemma ToCommitNone(pool: Pool, f: Forest, p: seq<Hash>, bar: nat, now: nat)
    ensures ToCommit(pool, f, p[|p|..], bar, now) == {}
  {
  }

  lemma OnMainIn(pool: Pool, f: Forest, n: Node)
    requires OnMain(pool, f, n)
    ensures n in f.nodes
  {
  }

  // ---------- commit times ----------

  ghost function TimesOf(f: Forest): map<Node, nat>
    reads f.nodes`timeCommited
  {
    map n | n in f.nodes :: n.timeCommited
  }

  /** The blocks handed over since the log was `start` have the time `now`, the others the time they had. */
  ghost predicate Stamped(f: Forest, was: map<Node, nat>, times: map<Node, nat>, start: seq<Hash>, log: seq<Hash>, now: nat) {
    was.Keys == times.Keys == f.nodes
    && forall n :: n in f.nodes ==> times[n] == if n.hash in log && n.hash !in start then now else was[n]
  }

  /** What one visit does to the log and to the commit times. */
  ghost predicate Visited(n: Node, times: map<Node, nat>, times': map<Node, nat>, log: seq<Hash>, log': seq<Hash>, now: nat) {
    if log' == log then times' == times else n.hash !in log && log' == log + [n.hash] && times' == times[n := now]
  }

  lemma StampedMore(pool: Pool, f: Forest, was: map<Node, nat>, times: map<Node, nat>, times': map<Node, nat>,
      start: seq<Hash>, log: seq<Hash>, log': seq<Hash>, n: Node, now: nat)
    requires NodesOk(pool, f) && n in f.nodes && start <= log && Stamped(f, was, times, start, log, now)
    requires Visited(n, times, times', log, log', now)
    ensures Stamped(f, was, times', start, log', now)
  {
    if log' != log {
      forall m | m in f.nodes && m != n ensures m.hash != n.hash { }
    }
  }

  lemma StampedOn(f: Forest, was: map<Node, nat>, times: map<Node, nat>, times': map<Node, nat>,
      start: seq<Hash>, log: seq<Hash>, log': seq<Hash>, now: nat)
    requires start <= log <= log' && Stamped(f, was, times, start, log, now) && Stamped(f, times, times', log, log', now)
    ensures Stamped(f, was, times', start, log', now)
  {
  }

  lemma StampedFirst(f: Forest, log: seq<Hash>, now: nat)
    ensures Stamped(f, TimesOf(f), TimesOf(f), log, log, now)
  {
  }

  /** The last block of what is left of the path is the node reached. */
  lemma WalkedHash(pool: Pool, f: Forest, r: Node, k: nat, n: Node)
    requires WalkedTo(pool, f, r, k, n)
    ensures k < |Path(pool, r.hash)| && Path(pool, r.hash)[|Path(pool, r.hash)| - k - 1] == n.hash && n in f.nodes
    ensures OnMain(pool, f, n)
  {
    var p := Path(pool, r.hash);
    assert Path(pool, n.hash)[|p| - k - 1] == n.hash;
  }

  lemma ToCommitMore(pool: Pool, f: Forest, p: seq<Hash>, k: nat, bar: nat, now: nat)
    requires k < |p|
    ensures ToCommit(pool, f, p[k..], bar, now) == ToCommit(pool, f, p[k + 1..], bar, now)
      + if Committable(pool, f, p[k], bar, now) then {p[k]} else {}
  {
    assert p[k..] == [p[k]] + p[k + 1..];
    hide Committable;
  }

  lemma MarksForCommit(pool: Pool, f: Forest, full: set<Node>, log: seq<Hash>, n: Node)
    requires NodesOk(pool, f) && n in full && n.timeCommited != 0 && LogFor(pool, f, full, log)
    requires MarksBut(pool, f, full, log, n)
    ensures LogFor(pool, f, full, log + [n.hash]) && MarksFor(pool, f, full, log + [n.hash])
  {
    hide NodesOk, Anchored, IsGenesis, Distinct;
    OthersDiffer(pool, f, n.hash);
    DistinctMore(log, n.hash);
    hide IsCommitted;
    forall m | m in full ensures IsCommitted(pool, log + [n.hash], m) { }
  }

  lemma DistinctMore(log: seq<Hash>, h: Hash)
    requires Distinct(log) && h !in log
    ensures Distinct(log + [h])
  {
  }

  /** The marks are right but for node n, which is not committed yet. */
  ghost predicate MarksBut(pool: Pool, f: Forest, full: set<Node>, log: seq<Hash>, n: Node)
    reads f.nodes`timeCommited
  {
    && (forall m :: m in full ==> m in f.nodes && Anchored(pool, f.held, m.hash) && (m != n ==> IsCommitted(pool, log, m)))
    && (forall m :: m in f.nodes && IsGenesis(pool, m.hash) ==> m in full)
    && n in f.nodes && n.hash in f.at && f.at[n.hash] == n && n.hash !in log && !IsGenesis(pool, n.hash)
  }

  lemma NotYetCommitted(pool: Pool, f: Forest, full: set<Node>, log: seq<Hash>, n: Node)
    requires NodesOk(pool, f) && MarksFor(pool, f, full, log) && n in full && n in f.nodes && n.timeCommited == 0
    requires !IsGenesis(pool, n.hash)
    ensures MarksBut(pool, f, full, log, n)
  {
    assert IsCommitted(pool, log, n);
    hide Anchored;
  }

  /** Hands one block to commit_block. */
  method CommitOne(n: Node, now: nat, ghost pool: Pool, ghost f: Forest, ghost log: seq<Hash>)
    requires NodesOk(pool, f) && FullAnchored(pool, f.nodes, f.held) && CommitsOk(pool, f, log)
    requires n in f.nodes && n.isFull && !IsGenesis(pool, n.hash) && n.timeCommited == 0 && now > 0
    modifies n`timeCommited
    ensures CommitsOk(pool, f, log + [n.hash])
    ensures n.timeCommited == now
  {
    hide NodesOk, FullAnchored, CommitsOk, LogFor, MarksFor, IndexFor, IndexExact, IsGenesis;
    ghost var full := FullNodes(f.nodes);
    RecordsNow(pool, f, map[], log);
    NotYetCommitted(pool, f, full, log, n);
    n.timeCommited := now;
    assert MarksBut(pool, f, full, log, n);
    MarksForCommit(pool, f, full, log, n);
    RecordsNow(pool, f, map[], log + [n.hash]);
  }

  lemma EndOnMain(pool: Pool, f: Forest, genesis: seq<Hash>, deepest: seq<Node>, c: nat)
    requires EndsOk(pool, f, genesis, deepest) && c < |deepest|
    ensures OnMain(pool, f, deepest[c]) && |deepest| == |genesis| && |Ends(deepest)| == |deepest|
    ensures Ends(deepest)[c] == deepest[c].hash
  {
  }

  lemma MainLabel(pool: Pool, f: Forest, n: Node)
    requires NodesOk(pool, f) && HeadersSet(pool, f.nodes, f.held) && OnMain(pool, f, n)
    ensures n.header == Some(pool[n.hash]) && NextRank(pool, n.hash) == pool[n.hash].nextRank && n.hash in f.at
    ensures f.at[n.hash] == n
  {
    HeaderKnown(pool, f, n);
  }

  /** A full block that can be committed has been, exactly if its time is set. */
  lemma CommitMark(pool: Pool, f: Forest, log: seq<Hash>, n: Node)
    requires CommitsOk(pool, f, log) && n in f.nodes && n.isFull
    ensures n.timeCommited == 0 ==> !IsGenesis(pool, n.hash) && n.hash !in log
    ensures n.timeCommited != 0 ==> IsGenesis(pool, n.hash) || (n.hash in log && n.hash in Logged(log))
  {
    assert IsCommitted(pool, log, n);
  }

  lemma LoggedMore(log: seq<Hash>, h: Hash)
    ensures Logged(log + [h]) == Logged(log) + {h} && |log + [h]| == |log| + 1
    ensures h in Logged(log) ==> Logged(log) + {h} == Logged(log)
  {
  }

  /** The blocks that the pass commits on the first i chains. */
  ghost function ToCommitUpTo(pool: Pool, f: Forest, tips: seq<Hash>, t: nat, i: nat, bar: nat, now: nat): set<Hash>
    requires i <= |tips|
    reads f.nodes`isFull, f.nodes`timeMined
  {
    set c, h | 0 <= c < i && h in Partial(pool, tips[c], t) && Committable(pool, f, h, bar, now) :: h
  }

  lemma UpToNext(pool: Pool, f: Forest, tips: seq<Hash>, t: nat, i: nat, bar: nat, now: nat)
    requires i < |tips|
    ensures ToCommitUpTo(pool, f, tips, t, i + 1, bar, now)
         == ToCommitUpTo(pool, f, tips, t, i, bar, now) + ToCommit(pool, f, Partial(pool, tips[i], t), bar, now)
  {
    hide Committable, Partial;
  }

  /** Blocks that the node's clock has not reached yet. */
  ghost function Late(f: Forest, now: nat): set<Hash>
    reads f.nodes`timeMined
  {
    set h | h in f.at && f.at[h] in f.nodes && f.at[h].timeMined >= now
  }

  /** All chains together: exactly what the protocol confirms. */
  lemma UpToIsConfirmed(pool: Pool, f: Forest, s: NodeState, t: nat, now: nat)
    requires s.full == FullBlocks(f)
    ensures ToCommitUpTo(pool, f, s.deepest, t, |s.deepest|, Bar(pool, s.deepest, t), now) == Confirmed(pool, s, t, Late(f, now))
  {
    hide Partial, Bar, NextRank;
    var bar := Bar(pool, s.deepest, t);
    forall h ensures h in ToCommitUpTo(pool, f, s.deepest, t, |s.deepest|, bar, now) <==> h in Confirmed(pool, s, t, Late(f, now)) {
      if h in Eligible(pool, s.deepest, t) && Committable(pool, f, h, bar, now) {
        var c :| 0 <= c < |s.deepest| && h in Partial(pool, s.deepest[c], t);
      }
      if h in ToCommitUpTo(pool, f, s.deepest, t, |s.deepest|, bar, now) {
        var c :| 0 <= c < |s.deepest| && h in Partial(pool, s.deepest[c], t);
        assert h in Eligible(pool, s.deepest, t);
      }
    }
  }

  lemma BarNone(pool: Pool, tips: seq<Hash>, t: nat)
    ensures Bar(pool, tips[..0], t) == U32 - 1
  {
  }

  lemma UpToNone(pool: Pool, f: Forest, tips: seq<Hash>, t: nat, bar: nat, now: nat)
    ensures ToCommitUpTo(pool, f, tips, t, 0, bar, now) == {}
  {
  }

  lemma HasCommitted(pool: Pool, f: Forest, s: NodeState, t: nat, now: nat, s': NodeState)
    requires Deep(pool, s.deepest, t) && s.full == FullBlocks(f) && s'.held == s.held && s'.deepest == s.deepest
    requires s'.full == s.full
    requires s'.committed == s.committed + ToCommitUpTo(pool, f, s.deepest, t, |s.deepest|, Bar(pool, s.deepest, t), now)
    ensures Commits(pool, s, t, Late(f, now), s')
  {
    hide Deep, Confirmed, Late, ToCommitUpTo, FullBlocks;
    UpToIsConfirmed(pool, f, s, t, now);
  }

  /**
   * What a commit pass at local time `now` is for: full blocks of the partial chains, other than genesis blocks, that
   * rank below the bar and were mined before now by their miner's clock.
   */
  ghost predicate IsCommitTime(pool: Pool, f: Forest, tips: seq<Hash>, t: nat, now: nat, h: Hash)
    reads f.nodes`isFull, f.nodes`timeMined
  {
    && h in f.at && f.at[h] in f.nodes && f.at[h].isFull && f.at[h].timeMined < now && !IsGenesis(pool, h)
    && NextRank(pool, h) < Bar(pool, tips, t) && exists c :: 0 <= c < |tips| && h in Partial(pool, tips[c], t)
  }

  lemma LoggedByClock(pool: Pool, f: Forest, tips: seq<Hash>, t: nat, now: nat, was: seq<Hash>, log: seq<Hash>)
    requires Logged(log) == Logged(was) + ToCommitUpTo(pool, f, tips, t, |tips|, Bar(pool, tips, t), now)
    ensures forall h :: h in log <==> h in was || IsCommitTime(pool, f, tips, t, now, h)
  {
    hide Bar, Partial, NextRank;
    forall h ensures h in log <==> h in was || IsCommitTime(pool, f, tips, t, now, h) {
      assert h in Logged(log) <==> h in log;
      assert h in Logged(was) <==> h in was;
      CommitTimeIs(pool, f, tips, t, now, h);
    }
  }

  lemma CommitTimeIs(pool: Pool, f: Forest, tips: seq<Hash>, t: nat, now: nat, h: Hash)
    ensures h in ToCommitUpTo(pool, f, tips, t, |tips|, Bar(pool, tips, t), now) <==> IsCommitTime(pool, f, tips, t, now, h)
  {
    hide Bar, Partial, NextRank;
    if IsCommitTime(pool, f, tips, t, now, h) {
      var c :| 0 <= c < |tips| && h in Partial(pool, tips[c], t);
      assert Committable(pool, f, h, Bar(pool, tips, t), now);
    }
  }

  lemma NothingToCommit(pool: Pool, f: Forest, bar: nat, now: nat)
    ensures ToCommit(pool, f, [], bar, now) == {}
  {
  }

  lemma NoCommit(pool: Pool, s: NodeState, t: nat, late: set<Hash>)
    requires !Deep(pool, s.deepest, t)
    ensures Commits(pool, s, t, late, s)
  {
  }

  /** The full blocks, other than genesis blocks, that are marked as committed. */
  ghost function Marked(pool: Pool, f: Forest): set<Hash>
    reads f.nodes`isFull, f.nodes`timeCommited
  {
    set h | h in f.at && f.at[h] in f.nodes && f.at[h].isFull && f.at[h].timeCommited != 0 && !IsGenesis(pool, h)
  }

  /** The log has the marked blocks, each once. */
  lemma LogIsMarked(pool: Pool, f: Forest, log: seq<Hash>)
    requires NodesOk(pool, f) && CommitsOk(pool, f, log)
    ensures Logged(log) == Marked(pool, f) && |Marked(pool, f)| == |log|
  {
    assert forall h :: h in f.at ==> f.at[h].hash == h;
    hide NodesOk, IsGenesis;
    forall h | h in f.at && f.at[h] in f.nodes && f.at[h].isFull ensures h in log <==> h in Marked(pool, f) {
      assert IsCommitted(pool, log, f.at[h]);
    }
    assert Logged(log) == Marked(pool, f);
    DistinctSize(log);
  }

  lemma {:induction false} DistinctSize(log: seq<Hash>)
    requires Distinct(log)
    ensures |Logged(log)| == |log|
    decreases |log|
  {
    if log != [] {
      var rest, x := log[..|log| - 1], log[|log| - 1];
      DistinctSize(rest);
      assert log == rest + [x];
      assert x !in rest;
      assert Logged(log) == Logged(rest) + {x};
    }
  }
}
