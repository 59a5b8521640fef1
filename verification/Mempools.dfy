/**
 * Where a transaction is between its acceptance and a block: in the mempool or in the pending table, and in which
 * order promises move transactions from the one to the other.
 */
module Mempools {
  import opened Prelude
  import opened Ageing
  import opened Wakeups
  import opened Turns

  // ---------- receiving and creating ----------

  /**
   * A new transaction goes to the end of the mempool if its dependency is empty or promised and it is its sender's
   * turn, or if its key is pending already; otherwise it becomes pending.  Any other one changes neither.
   */
  lemma ReceivedIsQueued(s: Tables, tx: Tx, now: int)
    ensures var v := Verified(s, tx, now);
      var own, other := if tx.key.from in s.next then s.next[tx.key.from] else 0, if tx.dep.from in s.next then s.next[tx.dep.from] else 0;
      if |tx.key.from| != 40 || |tx.to| != 40 || tx.amount == "" || tx.key in s.aging || tx.key in s.aged || tx.key.num < own
      then v.mempool == s.mempool && v.pending == s.pending
      else if ((tx.dep == NO_DEPENDENCY || tx.dep.num < other) && tx.key.num == own) || tx.key in s.pending
      then v.mempool == s.mempool + [tx] && v.pending == s.pending
      else v.mempool == s.mempool && v.pending == s.pending[tx.key := tx]
  {
    hide Queue;
    QueuedTables(s, tx);
  }

  /** The same for a created transaction, which becomes pending whatever was pending under its key. */
  lemma CreatedIsQueued(s: Tables, tx: Tx, now: int)
    ensures var c := Created(s, tx, now);
      var own, other := if tx.key.from in s.next then s.next[tx.key.from] else 0, if tx.dep.from in s.next then s.next[tx.dep.from] else 0;
      if (tx.dep == NO_DEPENDENCY || tx.dep.num < other) && tx.key.num == own
      then c.mempool == s.mempool + [tx] && c.pending == s.pending
      else c.mempool == s.mempool && c.pending == s.pending[tx.key := tx]
  {
  }

  /** A dependency check registers the printed key under a missing explicit dependency, at the end and once. */
  lemma CheckRegisters(s: Tables, from: Address, num: nat, d: Key, e: Key)
    ensures var n := if d.from in s.next then s.next[d.from] else 0;
      Waiters(Checked(s, from, num, d), e) ==
      if e == d && d != NO_DEPENDENCY && n <= d.num && Key(from, num, 0) !in Waiters(s, d)
      then Waiters(s, d) + [Key(from, num, 0)] else Waiters(s, e)
    ensures Checked(s, from, num, d).(waiting := s.waiting) == s
  {
  }

  // ---------- what a promise moves, in order ----------

  /** The listed transactions that are pending with a met dependency, in order and each once. */
  function Called(v: Tables, ks: seq<Key>, done: set<Key>): seq<Tx>
    decreases |ks|
  {
    if ks == [] then []
    else if ks[0] in v.pending && ks[0] !in done && !Missing(v, v.pending[ks[0]].dep)
    then [v.pending[ks[0]]] + Called(v, ks[1..], done + {ks[0]})
    else Called(v, ks[1..], done)
  }

  /** What is pending after the transactions of `done` have been moved. */
  ghost predicate Without(v: Tables, done: set<Key>, s: Tables) {
    s.next == v.next && s.pending == v.pending - done
  }

  lemma WokenOne(v: Tables, done: set<Key>, s: Tables, from: Address, num: nat, k: Key)
    requires Without(v, done, s) && k in s.pending && Next(s, from) == num
    ensures var w := Woken(s, from, num, k);
      if Missing(v, v.pending[k].dep) then Without(v, done, w) && w.mempool == s.mempool
      else Without(v, done + {k}, w) && w.mempool == s.mempool + [v.pending[k]]
  {
    assert v.pending - (done + {k}) == (v.pending - done) - {k};
  }

  lemma {:induction false} NotifyAllInOrder(v: Tables, done: set<Key>, s: Tables, from: Address, num: nat, ks: seq<Key>)
    requires Without(v, done, s) && Next(s, from) == num
    requires var x := Key(from, num, 0); x !in v.pending || x in done || Missing(v, v.pending[x].dep)
    ensures NotifyAll(s, from, num, ks).mempool == s.mempool + Called(v, ks, done)
    decreases |ks|
  {
    if ks != [] {
      var skip := ks[0] == Key(from, num, 0) || ks[0] !in s.pending;
      var s' := if skip then s else Woken(s, from, num, ks[0]);
      if skip || Missing(v, v.pending[ks[0]].dep) {
        if !skip { WokenOne(v, done, s, from, num, ks[0]); }
        NotifyAllInOrder(v, done, s', from, num, ks[1..]);
      } else {
        WokenOne(v, done, s, from, num, ks[0]);
        NotifyAllInOrder(v, done + {ks[0]}, s', from, num, ks[1..]);
        assert s.mempool + ([v.pending[ks[0]]] + Called(v, ks[1..], done + {ks[0]})) == s'.mempool + Called(v, ks[1..], done + {ks[0]});
      }
    }
  }

  lemma {:induction false} CalledAppend(v: Tables, ks: seq<Key>, done: set<Key>, x: Key)
    requires x !in v.pending || x in done || Missing(v, v.pending[x].dep)
    ensures Called(v, ks + [x], done) == Called(v, ks, done)
    decreases |ks|
  {
    if ks == [] {
      assert ([] + [x])[1..] == [];
      assert Called(v, [x], done) == Called(v, [x][1..], done);
    } else {
      assert (ks + [x])[1..] == ks[1..] + [x];
      CalledAppend(v, ks[1..], done + {ks[0]}, x);
      CalledAppend(v, ks[1..], done, x);
    }
  }

  /** Everything that is called leaves the pending table, so what is called once is called no more. */
  lemma NotifyingInOrder(v: Tables, from: Address, num: nat)
    ensures var b, x := Notifying(v, from, num), Key(from, Next(v, from), 0);
      b.mempool == v.mempool + Called(v, [x] + Waiters(v, Key(from, num, 0)), {})
  {
    var x, a := Key(from, Next(v, from), 0), NotifyNext(v, from);
    var ks, all := Waiters(v, Key(from, num, 0)), Waiters(a, Key(from, num, 0));
    assert v.pending - {} == v.pending && ([x] + ks)[1..] == ks;
    if x in v.pending {
      WokenOne(v, {}, v, from, Next(v, from), x);
      CheckRegisters(v, from, Next(v, from), v.pending[x].dep, Key(from, num, 0));
    }
    var done := if x in v.pending && !Missing(v, v.pending[x].dep) then {x} else {};
    assert Without(v, done, a);
    NotifyAllInOrder(v, done, a, from, Next(v, from), all);
    if all != ks { CalledAppend(v, ks, done, x); }
    assert {} + {x} == {x};
  }

  /**
   * What a promise appends to the mempool: the sender's next transaction and then those registered under the
   * promised key, in this order, each once, and only those that are pending with a met dependency.
   */
  lemma PromiseAppends(s: Tables, from: Address, num: nat, dep: Key, byAgeing: bool)
    ensures var v := Advanced(s, from, num);
      Promised(s, from, num, dep, byAgeing).mempool ==
      s.mempool + Called(v, [Key(from, Next(v, from), 0)] + Waiters(s, Key(from, num, 0)), {})
  {
    NotifyingInOrder(Advanced(s, from, num), from, num);
  }

  // ---------- which registrations a promise leaves ----------

  /** Some listed transaction is still pending and misses dependency e. */
  ghost predicate MissesIn(v: Tables, ks: seq<Key>, e: Key) {
    Missing(v, e) && exists i :: 0 <= i < |ks| && ks[i] in v.pending && v.pending[ks[i]].dep == e
  }

  /** Registrations once key x has been put under e, where that is due. */
  function Put(ws: seq<Key>, x: Key, due: bool): seq<Key> {
    if due && x !in ws then ws + [x] else ws
  }

  lemma WokenRegisters(v: Tables, done: set<Key>, s: Tables, from: Address, num: nat, k: Key, e: Key)
    requires Without(v, done, s) && k in s.pending && Next(s, from) == num
    ensures Waiters(Woken(s, from, num, k), e) ==
            Put(Waiters(s, e), Key(from, num, 0), Missing(v, e) && v.pending[k].dep == e)
  {
    CheckRegisters(s, from, num, s.pending[k].dep, e);
    hide Checked;
  }

  /** Transactions that have been moved missed nothing. */
  ghost predicate MovedOnly(v: Tables, done: set<Key>) {
    forall k :: k in done ==> k in v.pending && !Missing(v, v.pending[k].dep)
  }

  lemma {:induction false} NotifyAllRegisters(v: Tables, done: set<Key>, s: Tables, from: Address, num: nat, ks: seq<Key>, e: Key)
    requires Without(v, done, s) && MovedOnly(v, done) && Next(s, from) == num
    requires var x := Key(from, num, 0); MissesIn(v, [x], e) ==> x in Waiters(s, e)
    ensures Waiters(NotifyAll(s, from, num, ks), e) == Put(Waiters(s, e), Key(from, num, 0), MissesIn(v, ks, e))
    decreases |ks|
  {
    if ks != [] {
      var x, k := Key(from, num, 0), ks[0];
      var skip := k == x || k !in s.pending;
      var s' := if skip then s else Woken(s, from, num, k);
      MissesFirst(v, ks, e);
      if skip {
        NotifyAllRegisters(v, done, s, from, num, ks[1..], e);
        if k == x { assert [x][0] == x; }
      } else {
        var done' := if Missing(v, v.pending[k].dep) then done else done + {k};
        WokenOne(v, done, s, from, num, k);
        WokenRegisters(v, done, s, from, num, k, e);
        hide Woken;
        NotifyAllRegisters(v, done', s', from, num, ks[1..], e);
      }
    }
  }

  lemma MissesFirst(v: Tables, ks: seq<Key>, e: Key)
    requires ks != []
    ensures MissesIn(v, ks, e) <==> MissesIn(v, ks[1..], e) || (Missing(v, e) && ks[0] in v.pending && v.pending[ks[0]].dep == e)
  {
    if MissesIn(v, ks, e) {
      var i :| 0 <= i < |ks| && ks[i] in v.pending && v.pending[ks[i]].dep == e;
      assert i > 0 ==> ks[1..][i - 1] == ks[i];
    }
    if MissesIn(v, ks[1..], e) {
      var i :| 0 <= i < |ks[1..]| && ks[1..][i] in v.pending && v.pending[ks[1..][i]].dep == e;
      assert ks[i + 1] == ks[1..][i];
    }
  }

  lemma MissesSplit(v: Tables, a: seq<Key>, b: seq<Key>, e: Key)
    ensures MissesIn(v, a + b, e) <==> MissesIn(v, a, e) || MissesIn(v, b, e)
  {
    var c := a + b;
    if MissesIn(v, c, e) {
      var i :| 0 <= i < |c| && c[i] in v.pending && v.pending[c[i]].dep == e;
      if i < |a| { assert a[i] == c[i]; } else { assert b[i - |a|] == c[i]; }
    }
    if MissesIn(v, a, e) {
      var i :| 0 <= i < |a| && a[i] in v.pending && v.pending[a[i]].dep == e;
      assert c[i] == a[i];
    }
    if MissesIn(v, b, e) {
      var i :| 0 <= i < |b| && b[i] in v.pending && v.pending[b[i]].dep == e;
      assert c[|a| + i] == b[i];
    }
  }

  lemma MissesOne(v: Tables, x: Key, e: Key)
    ensures MissesIn(v, [x], e) <==> Missing(v, e) && x in v.pending && v.pending[x].dep == e
  {
    if x in v.pending && v.pending[x].dep == e { assert [x][0] == x; }
  }

  lemma NextRegisters(v: Tables, from: Address, e: Key)
    ensures var x := Key(from, Next(v, from), 0);
      Waiters(NotifyNext(v, from), e) == Put(Waiters(v, e), x, MissesIn(v, [x], e))
  {
    var x := Key(from, Next(v, from), 0);
    MissesOne(v, x, e);
    assert v.pending - {} == v.pending;
    if x in v.pending { WokenRegisters(v, {}, v, from, Next(v, from), x, e); }
    hide Woken;
  }

  lemma NotifyingRegisters(v: Tables, from: Address, num: nat, e: Key)
    ensures var x := Key(from, Next(v, from), 0);
      Waiters(Notifying(v, from, num), e) == Put(Waiters(v, e), x, MissesIn(v, [x] + Waiters(v, Key(from, num, 0)), e))
  {
    var x, d, a := Key(from, Next(v, from), 0), Key(from, num, 0), NotifyNext(v, from);
    NextRegisters(v, from, e);
    NextRegisters(v, from, d);
    MissesSplit(v, [x], Waiters(v, d), e);
    MissesSplit(v, Waiters(v, d), [x], e);
    assert v.pending - {} == v.pending;
    if x in v.pending { WokenOne(v, {}, v, from, Next(v, from), x); }
    assert {} + {x} == {x};
    var done := if x in v.pending && !Missing(v, v.pending[x].dep) then {x} else {};
    assert Without(v, done, a);
    hide NotifyNext, NotifyAll, Waiters, MissesIn;
    NotifyAllRegisters(v, done, a, from, Next(v, from), Waiters(a, d), e);
  }

  /**
   * The registrations after a promise: those of the promised key are gone; and under each dependency that a looked-up
   * transaction still misses, the promised sender's next key is registered, not the key of that transaction.
   */
  lemma PromiseRegisters(s: Tables, from: Address, num: nat, dep: Key, byAgeing: bool, e: Key)
    ensures var v, p := Advanced(s, from, num), Promised(s, from, num, dep, byAgeing);
      var x := Key(from, Next(v, from), 0);
      Waiters(p, e) == if e == Key(from, num, 0) then []
                       else Put(Waiters(s, e), x, MissesIn(v, [x] + Waiters(s, Key(from, num, 0)), e))
  {
    hide MissesIn, NotifyNext, NotifyAll;
    NotifyingRegisters(Advanced(s, from, num), from, num, e);
  }

  // ---------- no transaction is lost or doubled ----------

  /** The node has the transaction, in the mempool or in the pending table. */
  predicate InHand(s: Tables, tx: Tx) {
    tx in s.mempool || (tx.key in s.pending && s.pending[tx.key] == tx)
  }

  lemma PromiseKeepsHand(s: Tables, from: Address, num: nat, dep: Key, byAgeing: bool, tx: Tx)
    requires Filed(s)
    ensures var p := Promised(s, from, num, dep, byAgeing); Filed(p) && (InHand(p, tx) <==> InHand(s, tx))
  {
    var p := Promised(s, from, num, dep, byAgeing);
    PromiseGains(s, from, num, dep, byAgeing);
    hide Promised;
    assert p.mempool == s.mempool + p.mempool[|s.mempool|..];
  }

  lemma CheckKeepsHand(s: Tables, from: Address, num: nat, d: Key)
    ensures var c := Checked(s, from, num, d); c.pending == s.pending && c.mempool == s.mempool && c.next == s.next
  {
    CheckRegisters(s, from, num, d, d);
  }

  lemma AgeOneKeepsHand(s: Tables, at: int, k: Key, now: int, tx: Tx)
    requires Filed(s) && k in s.aging
    ensures var a := AgeOne(s, at, k, now); Filed(a) && (InHand(a, tx) <==> InHand(s, tx))
  {
    var t := s.aging[k].tx;
    CheckKeepsHand(s, t.key.from, t.key.num, t.dep);
    PromiseKeepsHand(Checked(s, t.key.from, t.key.num, t.dep), t.key.from, t.key.num, t.dep, true, tx);
    hide Checked, Promised;
  }

  lemma {:induction false} AgePassKeepsHand(s: Tables, at: int, keys: seq<Key>, clock: seq<int>, tx: Tx)
    requires Filed(s) && |clock| == |keys|
    ensures var a := AgePass(s, at, keys, clock); Filed(a) && (InHand(a, tx) <==> InHand(s, tx))
    decreases |keys|
  {
    hide AgeOne, Filed, InHand;
    if keys != [] {
      if keys[0] in s.aging {
        AgeOneKeepsHand(s, at, keys[0], clock[0], tx);
        AgePassKeepsHand(AgeOne(s, at, keys[0], clock[0]), at, keys[1..], clock[1..], tx);
      } else {
        AgePassKeepsHand(s, at, keys[1..], clock[1..], tx);
      }
    }
  }

  lemma CommittedKeepsHand(s: Tables, t: Tx, tx: Tx)
    requires Filed(s)
    ensures var c := Committed(s, t); Filed(c) && (InHand(c, tx) <==> InHand(s, tx))
  {
    var a := if t.key in s.aged && s.aged[t.key].tx == t then s.(aged := s.aged - {t.key}) else s;
    PromiseKeepsHand(a, t.key.from, t.key.num, t.dep, false, tx);
    hide Promised;
  }

  /** Dropping the first transaction of a key keeps those of other keys. */
  lemma {:induction false} DropFirstKeeps(m: seq<Tx>, k: Key, tx: Tx)
    ensures tx.key != k ==> (tx in DropFirst(m, k) <==> tx in m)
    ensures tx in DropFirst(m, k) ==> tx in m
    decreases |m|
  {
    if m != [] && m[0].key != k { DropFirstKeeps(m[1..], k, tx); }
  }

  /** Exactly the first transaction of the key goes. */
  lemma {:induction false} DropFirstDrops(m: seq<Tx>, k: Key, i: nat)
    requires i <= |m| && (forall j :: 0 <= j < i ==> m[j].key != k) && (i < |m| ==> m[i].key == k)
    ensures DropFirst(m, k) == if i < |m| then m[..i] + m[i + 1..] else m
    decreases |m|
  {
    DropFirstSkips(m[..i], m[i..], k);
    assert m[..i] + m[i..] == m;
    if i < |m| { assert m[i..][1..] == m[i + 1..]; } else { assert m[..i] == m; }
  }

  /** Which transactions an operation brings in: a new received one, and a created one. */
  ghost predicate Brings(s: Tables, op: Op, tx: Tx) {
    match op
    case Receive(t, _) => t == tx && IsNew(s, t)
    case Create(t, _) => t == tx
    case _ => false
  }

  /** The operation can take transactions of the key out of hand: one is seen in a block, or created over a pending one. */
  predicate Touches(op: Op, k: Key) {
    match op
    case Create(t, _) => t.key == k
    case SeeInBlock(t) => t.key == k
    case _ => false
  }

  lemma ReceivedKeepsHand(s: Tables, t: Tx, now: int, tx: Tx)
    requires Filed(s)
    ensures var a := Verified(s, t, now); Filed(a) && (InHand(a, tx) <==> InHand(s, tx) || (t == tx && IsNew(s, t)))
  {
    ReceivedIsQueued(s, t, now);
    hide Verified;
  }

  lemma CreatedKeepsHand(s: Tables, t: Tx, now: int, tx: Tx)
    requires Filed(s)
    ensures var a := Created(s, t, now);
      && Filed(a) && InHand(a, t) && (InHand(a, tx) ==> InHand(s, tx) || t == tx) && (InHand(s, tx) && t.key != tx.key ==> InHand(a, tx))
  {
    CreatedIsQueued(s, t, now);
    hide Created;
  }

  /** One operation: what it brings in is in hand, what it does not touch stays, and nothing else comes in. */
  lemma ApplyKeepsHand(s: Tables, op: Op, tx: Tx)
    requires Filed(s)
    ensures var a := Apply(s, op);
      && Filed(a) && (Brings(s, op, tx) ==> InHand(a, tx))
      && (InHand(s, tx) && !Touches(op, tx.key) ==> InHand(a, tx))
      && (InHand(a, tx) ==> InHand(s, tx) || Brings(s, op, tx))
  {
    match op
    case Receive(t, now) => ReceivedKeepsHand(s, t, now, tx);
    case Create(t, now) => CreatedKeepsHand(s, t, now, tx);
    case Age(at, keys, clock) => if |clock| == |keys| { AgePassKeepsHand(s, at, keys, clock, tx); }
    case Commit(t) => CommittedKeepsHand(s, t, tx);
    case SeeInBlock(t) => DropFirstKeeps(s.mempool, t.key, tx); hide DropFirst;
  }

  /**
   * Conservation: whatever happens, a transaction in hand stays in hand as long as no block shows its key and its
   * key is not created again.
   */
  lemma {:induction false} StaysInHand(s: Tables, ops: seq<Op>, tx: Tx)
    requires Filed(s) && InHand(s, tx) && forall i :: 0 <= i < |ops| ==> !Touches(ops[i], tx.key)
    ensures InHand(After(s, ops), tx) && Filed(After(s, ops))
    decreases |ops|
  {
    hide Filed, InHand, Apply, Touches;
    if ops != [] {
      var n := |ops| - 1;
      assert forall i :: 0 <= i < n ==> ops[..n][i] == ops[i];
      StaysInHand(s, ops[..n], tx);
      ApplyKeepsHand(After(s, ops[..n]), ops[n], tx);
    }
  }

  /** In every reachable state each transaction in hand was received as new or created. */
  lemma {:induction false} InHandWasBrought(ops: seq<Op>, tx: Tx) returns (i: nat)
    requires InHand(After(EMPTY, ops), tx)
    ensures i < |ops| && Brings(After(EMPTY, ops[..i]), ops[i], tx)
    decreases |ops|
  {
    hide Apply, Brings;
    i := 0;
    if ops != [] {
      var n := |ops| - 1;
      AlwaysFiled(ops[..n]);
      ApplyKeepsHand(After(EMPTY, ops[..n]), ops[n], tx);
      if InHand(After(EMPTY, ops[..n]), tx) {
        i := InHandWasBrought(ops[..n], tx);
        assert ops[..n][..i] == ops[..i];
      } else {
        i := n;
      }
    }
  }

  lemma {:induction false} AlwaysFiled(ops: seq<Op>)
    ensures Filed(After(EMPTY, ops))
    decreases |ops|
  {
    if ops != [] {
      var n := |ops| - 1;
      AlwaysFiled(ops[..n]);
      hide Apply, Filed, InHand, Brings, Touches;
      ApplyKeepsHand(After(EMPTY, ops[..n]), ops[n], Tx(NO_DEPENDENCY, "", "", NO_DEPENDENCY, ""));
    }
  }

  // ---------- blocks and the monitor ----------

  /**
   * A transaction of a received block that is sound, in turn or earlier and has its dependency promised is taken out:
   * of the pending table if its key is there, and otherwise the first one of its key out of the mempool.
   */
  lemma SeenIsTakenOut(s: Tables, tx: Tx, i: nat)
    requires i <= |s.mempool| && (forall j :: 0 <= j < i ==> s.mempool[j].key != tx.key)
    requires i < |s.mempool| ==> s.mempool[i].key == tx.key
    ensures var b := BlockTx(s, tx);
      var own, other := if tx.key.from in s.next then s.next[tx.key.from] else 0, if tx.dep.from in s.next then s.next[tx.dep.from] else 0;
      if |tx.key.from| != 40 || |tx.to| != 40 || tx.amount == "" || tx.key.num > own || tx.dep.num >= other then b == s
      else if tx.key in s.pending then b == s.(pending := s.pending - {tx.key})
      else b == s.(mempool := if i < |s.mempool| then s.mempool[..i] + s.mempool[i + 1..] else s.mempool)
  {
    DropFirstDrops(s.mempool, tx.key, i);
  }

  /** The monitor registers an old transaction that still misses its dependency, and leaves younger ones alone. */
  lemma OldIsRegistered(s: Tables, at: int, k: Key, now: int, e: Key)
    requires k in s.aging
    ensures var a, tx := AgeOne(s, at, k, now), s.aging[k].tx;
      var missing := tx.dep != NO_DEPENDENCY && (if tx.dep.from in s.next then s.next[tx.dep.from] else 0) <= tx.dep.num;
      && (now - s.aging[k].time <= at ==> a == s)
      && (now - s.aging[k].time > at && missing ==>
            Waiters(a, e) == Put(Waiters(s, e), Key(tx.key.from, tx.key.num, 0), e == tx.dep) && a.(waiting := s.waiting) == s)
  {
    var tx := s.aging[k].tx;
    CheckRegisters(s, tx.key.from, tx.key.num, tx.dep, e);
    hide Promised, Checked;
  }
}
