/**
 * Transactions ahead of their sender's turn: how they come into the mempool, which blocks can hold them, and what
 * committing them does.
 */
module Turns {
  import opened Prelude
  import opened Ageing
  import opened Wakeups

  /** The number of the key is larger than its sender's next one. */
  predicate IsAhead(s: Tables, k: Key) {
    k.num > Next(s, k.from)
  }

  // ---------- sequence numbers never fall ----------

  ghost predicate Onward(s: Tables, s': Tables) {
    forall a :: Next(s, a) <= Next(s', a)
  }

  lemma PromisedOnward(s: Tables, from: Address, num: nat, dep: Key, byAgeing: bool)
    ensures Promised(s, from, num, dep, byAgeing).next == Advanced(s, from, num).next
    ensures Onward(s, Promised(s, from, num, dep, byAgeing))
  {
    NotifyingSettles(Advanced(s, from, num), from, num);
  }

  lemma AgeOneOnward(s: Tables, at: int, k: Key, now: int)
    requires k in s.aging
    ensures Onward(s, AgeOne(s, at, k, now))
  {
    var tx := s.aging[k].tx;
    var c := Checked(s, tx.key.from, tx.key.num, tx.dep);
    CheckedSettles(s, tx.key.from, tx.key.num, tx.dep);
    PromisedOnward(c, tx.key.from, tx.key.num, tx.dep, true);
    hide Promised, Checked;
    forall a ensures Next(s, a) <= Next(AgeOne(s, at, k, now), a) { assert Next(s, a) == Next(c, a); }
  }

  lemma {:induction false} AgePassOnward(s: Tables, at: int, keys: seq<Key>, clock: seq<int>)
    requires |clock| == |keys|
    ensures Onward(s, AgePass(s, at, keys, clock))
    decreases |keys|
  {
    if keys != [] {
      if keys[0] in s.aging {
        AgeOneOnward(s, at, keys[0], clock[0]);
        AgePassOnward(AgeOne(s, at, keys[0], clock[0]), at, keys[1..], clock[1..]);
      } else {
        AgePassOnward(s, at, keys[1..], clock[1..]);
      }
    }
  }

  lemma CommittedOnward(s: Tables, tx: Tx)
    ensures Onward(s, Committed(s, tx))
  {
    if !IsPromised(s, tx.key) {
      var a := if tx.key in s.aged && s.aged[tx.key].tx == tx then s.(aged := s.aged - {tx.key}) else s;
      PromisedOnward(a, tx.key.from, tx.key.num, tx.dep, false);
      hide Promised;
      forall x ensures Next(s, x) <= Next(Committed(s, tx), x) { assert Next(s, x) == Next(a, x); }
    }
  }

  lemma ApplyOnward(s: Tables, op: Op)
    ensures Onward(s, Apply(s, op))
  {
    match op
    case Receive(tx, now) => QueueKeepsRecords(s, tx);
    case Create(tx, now) => CheckedSettles(s.(aging := s.aging[tx.key := Aging(tx, now)]), tx.key.from, tx.key.num, tx.dep);
    case Age(at, keys, clock) => if |clock| == |keys| { AgePassOnward(s, at, keys, clock); }
    case Commit(tx) => CommittedOnward(s, tx);
    case SeeInBlock(tx) =>
  }

  lemma {:induction false} AfterOnward(s: Tables, ops: seq<Op>)
    ensures Onward(s, After(s, ops))
    decreases |ops|
  {
    if ops != [] {
      var before := After(s, ops[..|ops| - 1]);
      AfterOnward(s, ops[..|ops| - 1]);
      ApplyOnward(before, ops[|ops| - 1]);
      hide Apply, After;
      forall a ensures Next(s, a) <= Next(Apply(before, ops[|ops| - 1]), a) { assert Next(s, a) <= Next(before, a); }
    }
  }

  // ---------- blocks ----------

  /**
   * A received block never commits a transaction ahead of its turn: it was in turn or earlier when the block was
   * checked, and still is whenever the block is committed, whatever happens in between.
   */
  lemma ReceivedBlocksAreInTurn(s: Tables, ops: seq<Op>, tx: Tx, rank: nat, lastRank: nat, at: int, d: int, discard: nat)
    requires BlockTxOk(s, tx, rank, lastRank, at, d, discard)
    ensures !IsAhead(After(s, ops), tx.key)
  {
    AfterOnward(s, ops);
    hide After;
  }

  // ---------- the mempool ----------

  /**
   * The promise of (from, num) finds k registered and its dependency met, and does not look at the turn of k's own
   * sender.
   */
  ghost predicate Forwards(s: Tables, from: Address, num: nat, k: Key)
    requires k in s.pending
  {
    var v := Advanced(s, from, num);
    k in Waiters(v, Key(from, num, 0)) && !Missing(v, s.pending[k].dep) && IsAhead(v, k)
  }

  /** Exactly which transactions a promise moves to the mempool ahead of their sender's turn. */
  lemma PromiseForwards(s: Tables, from: Address, num: nat, dep: Key, byAgeing: bool, k: Key)
    requires k in s.pending
    ensures var p := Promised(s, from, num, dep, byAgeing);
      k !in p.pending && IsAhead(p, k) <==> Forwards(s, from, num, k)
  {
    var v := Advanced(s, from, num);
    NotifyingMoves(v, from, num, k);
    NotifyingSettles(v, from, num);
  }

  /** What is new in the mempool: the transactions that left the pending table, and nothing else. */
  ghost predicate Gains(s: Tables, s': Tables) {
    && s.mempool <= s'.mempool
    && (forall k :: k in s'.pending ==> k in s.pending && s'.pending[k] == s.pending[k])
    && (forall k :: k in s.pending && k !in s'.pending ==> s.pending[k] in s'.mempool[|s.mempool|..])
    && (forall tx :: tx in s'.mempool[|s.mempool|..] ==> exists k :: k in s.pending && k !in s'.pending && s.pending[k] == tx)
  }

  lemma GainsMore(a: Tables, b: Tables, c: Tables)
    requires Gains(a, b) && Gains(b, c)
    ensures Gains(a, c)
  {
    var n := |a.mempool|;
    assert c.mempool[n..] == b.mempool[n..] + c.mempool[|b.mempool|..];
    forall tx | tx in c.mempool[n..] ensures exists k :: k in a.pending && k !in c.pending && a.pending[k] == tx {
      if tx in b.mempool[n..] {
        var k :| k in a.pending && k !in b.pending && a.pending[k] == tx;
        assert k !in c.pending;
      } else {
        var k :| k in b.pending && k !in c.pending && b.pending[k] == tx;
        assert k in a.pending && a.pending[k] == tx;
      }
    }
  }

  lemma WokenGains(s: Tables, from: Address, num: nat, k: Key)
    requires k in s.pending
    ensures Gains(s, Woken(s, from, num, k))
  {
    var w := Woken(s, from, num, k);
    CheckedSettles(s, from, num, s.pending[k].dep);
    if k !in w.pending {
      assert w.mempool[|s.mempool|..] == [s.pending[k]];
    } else {
      assert w.mempool[|s.mempool|..] == [];
    }
  }

  lemma {:induction false} NotifyAllGains(s: Tables, from: Address, num: nat, ks: seq<Key>)
    ensures Gains(s, NotifyAll(s, from, num, ks))
    decreases |ks|
  {
    if ks != [] {
      var s' := if ks[0] == Key(from, num, 0) || ks[0] !in s.pending then s else Woken(s, from, num, ks[0]);
      if ks[0] in s.pending { WokenGains(s, from, num, ks[0]); }
      NotifyAllGains(s', from, num, ks[1..]);
      hide Woken;
      GainsMore(s, s', NotifyAll(s', from, num, ks[1..]));
    }
  }

  lemma PromiseGains(s: Tables, from: Address, num: nat, dep: Key, byAgeing: bool)
    ensures Gains(s, Promised(s, from, num, dep, byAgeing))
  {
    var v := Advanced(s, from, num);
    var a := NotifyNext(v, from);
    var x := Key(from, Next(v, from), 0);
    if x in v.pending { WokenGains(v, from, Next(v, from), x); }
    NotifyAllGains(a, from, Next(v, from), Waiters(a, Key(from, num, 0)));
    GainsMore(v, a, Notifying(v, from, num));
  }

  /** Pending transactions are filed under their keys. */
  ghost predicate Filed(s: Tables) {
    forall k :: k in s.pending ==> s.pending[k].key == k
  }

  /** Some transaction came into the mempool ahead of its sender's turn. */
  ghost predicate GainsAhead(s: Tables, s': Tables) {
    exists tx :: s.mempool <= s'.mempool && tx in s'.mempool[|s.mempool|..] && IsAhead(s', tx.key)
  }

  /** Exactly which promises put a transaction into the mempool ahead of its sender's turn. */
  lemma PromisePutsAhead(s: Tables, from: Address, num: nat, dep: Key, byAgeing: bool)
    requires Filed(s)
    ensures GainsAhead(s, Promised(s, from, num, dep, byAgeing)) <==> exists k :: k in s.pending && Forwards(s, from, num, k)
  {
    var p := Promised(s, from, num, dep, byAgeing);
    PromiseGains(s, from, num, dep, byAgeing);
    hide Promised, Forwards;
    if GainsAhead(s, p) {
      var tx :| tx in p.mempool[|s.mempool|..] && IsAhead(p, tx.key);
      var k :| k in s.pending && k !in p.pending && s.pending[k] == tx;
      PromiseForwards(s, from, num, dep, byAgeing, k);
    }
    if exists k :: k in s.pending && Forwards(s, from, num, k) {
      var k :| k in s.pending && Forwards(s, from, num, k);
      PromiseForwards(s, from, num, dep, byAgeing, k);
      assert s.pending[k] in p.mempool[|s.mempool|..] && IsAhead(p, s.pending[k].key);
    }
  }

  // ---------- an input ----------

  /** A later transaction of one sender, depending on the first one of another sender. */
  predicate LaterDependent(b: Tx, d: Tx) {
    && Acceptable(b) && Acceptable(d) && b.key.spelling == 0 && d.key.spelling == 0 && b.key.from != d.key.from
    && b.key.num > 0 && d.key.num == 0 && b.dep == d.key && d.key != NO_DEPENDENCY
  }

  /** The tables after receiving such a transaction and promising its dependency. */
  ghost predicate ForwardedTo(s: Tables, b: Tx, d: Tx) {
    && s.pending == map[] && b in s.mempool && s.aged == map[] && s.aging.Keys == {b.key}
    && s.next == map[d.key.from := 1]
  }

  lemma ReceivedFirst(b: Tx, d: Tx, now: int)
    requires LaterDependent(b, d)
    ensures var s := Verified(EMPTY, b, now);
      && s.pending == map[b.key := b] && s.mempool == [] && s.aged == map[] && s.next == map[] && s.aging.Keys == {b.key}
      && Waiters(s, d.key) == [b.key]
  {
  }

  lemma ThenPromised(b: Tx, d: Tx, s: Tables)
    requires LaterDependent(b, d) && s.pending == map[b.key := b] && s.mempool == [] && s.aged == map[] && s.next == map[]
    requires s.aging.Keys == {b.key} && Waiters(s, d.key) == [b.key]
    ensures ForwardedTo(Committed(s, d), b, d)
  {
    var p := Promised(s, d.key.from, 0, d.dep, false);
    assert d.key == Key(d.key.from, 0, 0);
    PromiseForwards(s, d.key.from, 0, d.dep, false, b.key);
    PromiseGains(s, d.key.from, 0, d.dep, false);
    NotifyingSettles(Advanced(s, d.key.from, 0), d.key.from, 0);
    assert p.mempool[0..] == p.mempool;
  }

  lemma AfterTwo(a: Op, b: Op)
    ensures After(EMPTY, [a, b]) == Apply(Apply(EMPTY, a), b)
  {
    assert [a, b][..1] == [a] && [a][..0] == [];
    assert After(EMPTY, []) == EMPTY && After(EMPTY, [a]) == Apply(EMPTY, a);
  }

  lemma AfterFour(a: Op, b: Op, c: Op, d: Op)
    ensures After(EMPTY, [a, b, c, d]) == Apply(Apply(After(EMPTY, [a, b]), c), d)
  {
    assert [a, b, c, d][..3] == [a, b, c] && [a, b, c][..2] == [a, b];
    hide Apply;
    assert After(EMPTY, [a, b, c]) == Apply(After(EMPTY, [a, b]), c);
  }

  /** The node's own mempool, and so its own blocks, can hold a transaction ahead of its turn. */
  lemma AheadInMempool(b: Tx, d: Tx, now: int)
    requires LaterDependent(b, d)
    ensures var s := After(EMPTY, [Receive(b, now), Op.Commit(d)]);
      ForwardedTo(s, b, d) && b in s.mempool && IsAhead(s, b.key)
  {
    AfterTwo(Receive(b, now), Op.Commit(d));
    hide After, Verified, Committed;
    ReceivedFirst(b, d, now);
    ThenPromised(b, d, Verified(EMPTY, b, now));
  }

  /** A transaction that misses its dependency is registered under it, if its own key is as printed. */
  lemma QueueWaits(s: Tables, w: Tx)
    requires Missing(s, w.dep) && w.key !in s.pending && w.key.spelling == 0
    ensures var q := Queue(s, w);
      w.key in q.pending && q.pending[w.key] == w && w.key in Waiters(q, w.dep) && q.next == s.next
  {
    CheckedSettles(s, w.key.from, w.key.num, w.dep);
  }

  /** The transaction w arrives, waits for b, and is registered under it. */
  lemma ThenWaits(s: Tables, b: Tx, d: Tx, w: Tx, now: int)
    requires LaterDependent(b, d) && ForwardedTo(s, b, d)
    requires Acceptable(w) && w.key.spelling == 0 && w.dep == b.key && w.key.from != b.key.from && w.key.from != d.key.from
    ensures var v := Verified(s, w, now);
      && w.key in v.pending && v.pending[w.key] == w && Awaited(v, w.key) && v.next == s.next
  {
    QueueWaits(s, w);
    hide Queue;
    assert w.key !in s.aging;
  }

  /** Committing a transaction ahead of its turn loses those who wait for it. */
  lemma AheadLosesWaiters(b: Tx, d: Tx, w: Tx, now: int)
    requires LaterDependent(b, d)
    requires Acceptable(w) && w.key.spelling == 0 && w.dep == b.key && w.key.from != b.key.from && w.key.from != d.key.from
    ensures !NoneLost(After(EMPTY, [Receive(b, now), Op.Commit(d), Receive(w, now), Op.Commit(b)]))
  {
    var s := After(EMPTY, [Receive(b, now), Op.Commit(d)]);
    AfterFour(Receive(b, now), Op.Commit(d), Receive(w, now), Op.Commit(b));
    AheadInMempool(b, d, now);
    ThenWaits(s, b, d, w, now);
    hide After, Verified;
    CommitLosesWaiter(Verified(s, w, now), b, w.key);
  }

  lemma CommitLosesWaiter(s: Tables, b: Tx, k: Key)
    requires k in s.pending && Awaited(s, k) && s.pending[k].dep == b.key && b.key.spelling == 0 && IsAhead(s, b.key)
    requires b.key != NO_DEPENDENCY
    ensures !NoneLost(Committed(s, b))
  {
    var a := if b.key in s.aged && s.aged[b.key].tx == b then s.(aged := s.aged - {b.key}) else s;
    SameAwaited(s, a, k);
    assert Forgets(a, b.key.from, b.key.num, k);
    PromiseForgets(a, b.key.from, b.key.num, b.dep, false, k);
    hide Promised;
  }
}
