/**
 * No pending transaction is forgotten: it is either registered under the dependency it still misses, or not
 * yet its sender's turn.  Promising re-establishes this through the implicit and explicit notifications, except
 * for what is spelled differently from its printed form or promised ahead of its turn; which of these are lost is
 * said exactly.
 */
module Wakeups {
  import opened Prelude
  import opened Ageing

  /** A pending transaction misses its dependency and is registered under it, or is not next in turn. */
  ghost predicate Awaited(s: Tables, k: Key)
    requires k in s.pending
  {
    var d := s.pending[k].dep;
    if Missing(s, d) then k in Waiters(s, d) else Next(s, k.from) != k.num
  }

  ghost predicate NoneLost(s: Tables) {
    forall k :: k in s.pending ==> Awaited(s, k)
  }

  // ---------- what notifications do to the tables ----------

  /** Sequence numbers stay, pending transactions can only leave, registrations are only added. */
  ghost predicate Settles(s: Tables, s': Tables) {
    && s'.next == s.next && s'.aging == s.aging && s'.aged == s.aged && s'.log == s.log
    && (forall k :: k in s'.pending ==> k in s.pending && s'.pending[k] == s.pending[k])
    && (forall d, k :: k in Waiters(s, d) ==> k in Waiters(s', d))
    && (forall k :: k in s.pending && k !in s'.pending ==> !Missing(s, s.pending[k].dep))
  }

  lemma CheckedSettles(s: Tables, from: Address, num: nat, d: Key)
    ensures Settles(s, Checked(s, from, num, d)) && Checked(s, from, num, d).pending == s.pending
    ensures Missing(s, d) ==> Key(from, num, 0) in Waiters(Checked(s, from, num, d), d)
  {
    forall e, k | k in Waiters(s, e) ensures k in Waiters(Checked(s, from, num, d), e) {
    }
  }

  lemma QueueKeepsRecords(s: Tables, tx: Tx)
    ensures var q := Queue(s, tx); q.next == s.next && q.aging == s.aging && q.aged == s.aged && q.log == s.log
  {
    CheckedSettles(s, tx.key.from, tx.key.num, tx.dep);
  }

  lemma WokenSettles(s: Tables, from: Address, num: nat, k: Key)
    requires k in s.pending
    ensures Settles(s, Woken(s, from, num, k))
    ensures Next(s, from) == num ==> (k in Woken(s, from, num, k).pending <==> Missing(s, s.pending[k].dep))
  {
    CheckedSettles(s, from, num, s.pending[k].dep);
  }

  lemma SettlesTransitive(a: Tables, b: Tables, c: Tables)
    requires Settles(a, b) && Settles(b, c)
    ensures Settles(a, c)
  {
    forall k | k in a.pending && k !in c.pending ensures !Missing(a, a.pending[k].dep) {
      assert k in b.pending || k !in b.pending;
    }
  }

  /** Every listed dependent whose own dependency is met leaves the pending table. */
  lemma {:induction false} NotifyAllSettles(s: Tables, from: Address, num: nat, ks: seq<Key>)
    requires Next(s, from) == num
    ensures Settles(s, NotifyAll(s, from, num, ks))
    ensures forall k :: k in ks && k != Key(from, num, 0) && k in s.pending && !Missing(s, s.pending[k].dep) ==>
      k !in NotifyAll(s, from, num, ks).pending
    decreases |ks|
  {
    if ks != [] {
      var s' := if ks[0] == Key(from, num, 0) || ks[0] !in s.pending then s else Woken(s, from, num, ks[0]);
      if ks[0] in s.pending {
        WokenSettles(s, from, num, ks[0]);
      }
      NotifyAllSettles(s', from, num, ks[1..]);
      SettlesTransitive(s, s', NotifyAll(s', from, num, ks[1..]));
      forall k | k in ks && k != Key(from, num, 0) && k in s.pending && !Missing(s, s.pending[k].dep)
        ensures k !in NotifyAll(s, from, num, ks).pending
      {
        assert k == ks[0] || k in ks[1..];
      }
    }
  }

  /** The tables just before the registrations of the promised key are cleared. */
  ghost function Notifying(s: Tables, from: Address, num: nat): Tables {
    var a := NotifyNext(s, from);
    NotifyAll(a, from, Next(s, from), Waiters(a, Key(from, num, 0)))
  }

  /** The implicit notification leaves the sender's next transaction pending only if it misses its dependency. */
  lemma NotifyNextSettles(s: Tables, from: Address)
    ensures Settles(s, NotifyNext(s, from))
    ensures var k := Key(from, Next(s, from), 0); k in NotifyNext(s, from).pending ==>
      Missing(s, s.pending[k].dep) && k in Waiters(NotifyNext(s, from), s.pending[k].dep)
  {
    var k := Key(from, Next(s, from), 0);
    if k in s.pending {
      WokenSettles(s, from, Next(s, from), k);
      CheckedSettles(s, from, Next(s, from), s.pending[k].dep);
    }
  }

  lemma NotifyingSettles(s: Tables, from: Address, num: nat)
    ensures Settles(s, Notifying(s, from, num))
    ensures var k := Key(from, Next(s, from), 0); k in Notifying(s, from, num).pending ==>
      Missing(s, s.pending[k].dep) && k in Waiters(Notifying(s, from, num), s.pending[k].dep)
    ensures forall k :: k in Waiters(s, Key(from, num, 0)) && k in Notifying(s, from, num).pending ==> Missing(s, s.pending[k].dep)
  {
    var a := NotifyNext(s, from);
    NotifyNextSettles(s, from);
    NotifyAllSettles(a, from, Next(s, from), Waiters(a, Key(from, num, 0)));
    SettlesTransitive(s, a, Notifying(s, from, num));
    forall k | k in Waiters(s, Key(from, num, 0)) && k in Notifying(s, from, num).pending
      ensures Missing(s, s.pending[k].dep)
    {
      assert k in Waiters(a, Key(from, num, 0)) && k in a.pending;
    }
  }

  // ---------- which pending transactions a notification finds ----------

  /** A key that is not listed stays pending. */
  lemma {:induction false} NotifyAllLeavesOthers(s: Tables, from: Address, num: nat, ks: seq<Key>, k: Key)
    requires k in s.pending && k !in ks
    ensures k in NotifyAll(s, from, num, ks).pending
    decreases |ks|
  {
    if ks != [] {
      NotifyAllLeavesOthers(if ks[0] == Key(from, num, 0) || ks[0] !in s.pending then s else Woken(s, from, num, ks[0]),
        from, num, ks[1..], k);
    }
  }

  /** The promise of (from, num) looks k up: as the sender's next key or registered, both as the node prints them. */
  ghost predicate Reached(v: Tables, from: Address, num: nat, k: Key) {
    k == Key(from, Next(v, from), 0) || k in Waiters(v, Key(from, num, 0))
  }

  /** Exactly the transactions that are looked up and miss nothing leave the pending table. */
  lemma NotifyingMoves(v: Tables, from: Address, num: nat, k: Key)
    requires k in v.pending
    ensures k !in Notifying(v, from, num).pending <==> Reached(v, from, num, k) && !Missing(v, v.pending[k].dep)
  {
    NotifyingSettles(v, from, num);
    if !Reached(v, from, num, k) {
      var a := NotifyNext(v, from);
      NotifyAllLeavesOthers(a, from, Next(v, from), Waiters(a, Key(from, num, 0)), k);
    }
  }

  // ---------- one promise ----------

  /** Nothing holds the pending transaction back. */
  predicate Due(s: Tables, k: Key)
    requires k in s.pending
  {
    !Missing(s, s.pending[k].dep) && Next(s, k.from) == k.num
  }

  /**
   * What the promise of (from, num) forgets.  In turn: a transaction that becomes due and is not looked up,
   * because its own key or its dependency is not spelled as the node prints it.  Ahead of the turn: every
   * transaction that waits for this key, because the registrations are cleared although nothing counts as promised.
   */
  ghost predicate Forgets(s: Tables, from: Address, num: nat, k: Key)
    requires k in s.pending
  {
    var v := Advanced(s, from, num);
    if num <= Next(s, from) then Due(v, k) && !Reached(v, from, num, k)
    else s.pending[k].dep == Key(from, num, 0) && Missing(s, Key(from, num, 0))
  }

  /** Which transactions a promise loses, one by one. */
  lemma PromiseForgets(s: Tables, from: Address, num: nat, dep: Key, byAgeing: bool, k: Key)
    requires k in s.pending && Awaited(s, k)
    ensures var p := Promised(s, from, num, dep, byAgeing);
      (k in p.pending && !Awaited(p, k)) <==> Forgets(s, from, num, k)
  {
    if num <= Next(s, from) {
      InTurnForgets(s, from, num, dep, byAgeing, k);
    } else {
      AheadForgets(s, from, num, dep, byAgeing, k);
    }
  }

  lemma InTurnForgets(s: Tables, from: Address, num: nat, dep: Key, byAgeing: bool, k: Key)
    requires k in s.pending && Awaited(s, k) && num <= Next(s, from)
    ensures var p := Promised(s, from, num, dep, byAgeing);
      (k in p.pending && !Awaited(p, k)) <==> Forgets(s, from, num, k)
  {
    hide Notified, Waiters, Advanced, Reached, Due;
    var v := Advanced(s, from, num);
    AdvancedAwaits(s, from, num, k);
    NotifiedForgets(v, from, num, k);
    SameAwaited(Notified(v, from, num), Promised(s, from, num, dep, byAgeing), k);
  }

  lemma AdvancedAwaits(s: Tables, from: Address, num: nat, k: Key)
    requires k in s.pending && Awaited(s, k) && num <= Next(s, from)
    ensures var v := Advanced(s, from, num);
      && !Missing(v, Key(from, num, 0)) && v.pending == s.pending
      && (Missing(v, v.pending[k].dep) ==> k in Waiters(v, v.pending[k].dep))
  {
  }

  lemma SameAwaited(s: Tables, s': Tables, k: Key)
    requires s'.pending == s.pending && s'.next == s.next && s'.waiting == s.waiting
    ensures k in s.pending ==> (Awaited(s, k) <==> Awaited(s', k))
  {
  }

  lemma NotifiedForgets(v: Tables, from: Address, num: nat, k: Key)
    requires k in v.pending && !Missing(v, Key(from, num, 0))
    requires Missing(v, v.pending[k].dep) ==> k in Waiters(v, v.pending[k].dep)
    ensures var p := Notified(v, from, num);
      (k in p.pending && !Awaited(p, k)) <==> Due(v, k) && !Reached(v, from, num, k)
  {
    NotifyingMoves(v, from, num, k);
    NotifyingForgets(v, from, num, k);
  }

  /** What the notification leaves pending stays registered as long as it misses its dependency. */
  lemma NotifyingForgets(v: Tables, from: Address, num: nat, k: Key)
    requires k in v.pending && !Missing(v, Key(from, num, 0))
    requires Missing(v, v.pending[k].dep) ==> k in Waiters(v, v.pending[k].dep)
    ensures var p := Notified(v, from, num);
      k in p.pending ==> p.pending[k] == v.pending[k] && (Awaited(p, k) <==> !Due(v, k))
  {
    NotifyingSettles(v, from, num);
    var d := v.pending[k].dep;
    if Missing(v, d) {
      assert k in Waiters(Notifying(v, from, num), d) && d != Key(from, num, 0);
    }
  }

  lemma AheadForgets(s: Tables, from: Address, num: nat, dep: Key, byAgeing: bool, k: Key)
    requires k in s.pending && Awaited(s, k) && num > Next(s, from)
    ensures var p := Promised(s, from, num, dep, byAgeing);
      (k in p.pending && !Awaited(p, k)) <==> Forgets(s, from, num, k)
  {
    var d := s.pending[k].dep;
    NotifyingSettles(s, from, num);
    if Missing(s, d) {
      assert k in Waiters(s, d) && k in Waiters(Notifying(s, from, num), d);
    }
  }

  lemma PromisedPending(s: Tables, from: Address, num: nat, dep: Key, byAgeing: bool)
    ensures var p := Promised(s, from, num, dep, byAgeing);
      forall k :: k in p.pending ==> k in s.pending && p.pending[k] == s.pending[k]
  {
    NotifyingSettles(Advanced(s, from, num), from, num);
  }

  ghost predicate ForgetsNone(s: Tables, from: Address, num: nat) {
    forall k :: k in s.pending ==> !Forgets(s, from, num, k)
  }

  /** Exactly when a promise loses no wake-up, whatever the spelling of keys and dependencies. */
  lemma PromiseLosesNone(s: Tables, from: Address, num: nat, dep: Key, byAgeing: bool)
    requires NoneLost(s)
    ensures NoneLost(Promised(s, from, num, dep, byAgeing)) <==> ForgetsNone(s, from, num)
  {
    var p := Promised(s, from, num, dep, byAgeing);
    PromisedPending(s, from, num, dep, byAgeing);
    forall k | k in s.pending ensures (k in p.pending && !Awaited(p, k)) <==> Forgets(s, from, num, k) {
      assert Awaited(s, k);
      PromiseForgets(s, from, num, dep, byAgeing, k);
    }
  }

  /**
   * A promise in turn forgets only what is spelled differently from its printed form: a dependency on the
   * promised number, or the sender's next transaction itself.
   */
  lemma OnlyOddIsForgotten(s: Tables, from: Address, num: nat, k: Key)
    requires k in s.pending && Awaited(s, k) && num <= Next(s, from) && Forgets(s, from, num, k)
    ensures num == Next(s, from)
    ensures var d := s.pending[k].dep;
      || (d.from == from && d.num == num && d.spelling != 0)
      || (k.from == from && k.num == num + 1 && k.spelling != 0)
  {
    var d := s.pending[k].dep;
  }

  // ---------- the other operations ----------

  /** Adding registrations and removing pending transactions loses nothing. */
  lemma SettlingLosesNone(s: Tables, s': Tables)
    requires NoneLost(s) && Settles(s, s')
    ensures NoneLost(s')
  {
    forall k | k in s'.pending ensures Awaited(s', k) {
      assert Awaited(s, k);
    }
  }

  /** Only pending transactions, sequence numbers and registrations matter. */
  lemma SameWaits(s: Tables, s': Tables)
    requires s'.pending == s.pending && s'.next == s.next && s'.waiting == s.waiting
    ensures NoneLost(s) <==> NoneLost(s')
    ensures Plain(s) ==> Plain(s')
  {
    if NoneLost(s) {
      forall k | k in s'.pending ensures Awaited(s', k) { assert Awaited(s, k); }
    }
    if NoneLost(s') {
      forall k | k in s.pending ensures Awaited(s, k) { assert Awaited(s', k); }
    }
  }

  /** The transaction misses its dependency, and the registration made for it, as printed, is not its key. */
  predicate Unregistered(s: Tables, tx: Tx) {
    Missing(s, tx.dep) && tx.key.spelling != 0 && tx.key !in Waiters(s, tx.dep)
  }

  lemma PendingLosesNone(s: Tables, tx: Tx)
    requires NoneLost(s) && !Satisfied(s, tx.key.from, tx.key.num, tx.dep)
    ensures var c := Checked(s, tx.key.from, tx.key.num, tx.dep);
      NoneLost(c.(pending := c.pending[tx.key := tx])) <==> !Unregistered(s, tx)
  {
    var c := Checked(s, tx.key.from, tx.key.num, tx.dep);
    var q := c.(pending := c.pending[tx.key := tx]);
    CheckedSettles(s, tx.key.from, tx.key.num, tx.dep);
    SettlingLosesNone(s, c);
    assert Awaited(q, tx.key) <==> !Unregistered(s, tx);
    forall k | k in q.pending && k != tx.key ensures Awaited(q, k) {
      assert Awaited(c, k);
    }
  }

  /** Exactly when a received transaction is registered so that it can be found again. */
  lemma VerifiedLosesNone(s: Tables, tx: Tx, now: int)
    requires NoneLost(s)
    ensures NoneLost(Verified(s, tx, now)) <==> !(IsNew(s, tx) && tx.key !in s.pending && Unregistered(s, tx))
  {
    if IsNew(s, tx) {
      var c := Checked(s, tx.key.from, tx.key.num, tx.dep);
      CheckedSettles(s, tx.key.from, tx.key.num, tx.dep);
      if !Satisfied(s, tx.key.from, tx.key.num, tx.dep) && tx.key !in c.pending {
        PendingLosesNone(s, tx);
        SameWaits(c.(pending := c.pending[tx.key := tx]), Verified(s, tx, now));
      } else {
        SettlingLosesNone(s, c);
        SameWaits(c, Verified(s, tx, now));
      }
    } else {
      SameWaits(s, Verified(s, tx, now));
    }
  }

  lemma CreatedLosesNone(s: Tables, tx: Tx, now: int)
    requires NoneLost(s)
    ensures NoneLost(Created(s, tx, now)) <==> !Unregistered(s, tx)
  {
    var a := s.(aging := s.aging[tx.key := Aging(tx, now)]);
    var c := Checked(a, tx.key.from, tx.key.num, tx.dep);
    SameWaits(s, a);
    CheckedSettles(a, tx.key.from, tx.key.num, tx.dep);
    hide NoneLost, Checked;
    if Satisfied(a, tx.key.from, tx.key.num, tx.dep) {
      SettlingLosesNone(a, c);
      SameWaits(c, Created(s, tx, now));
    } else {
      PendingLosesNone(a, tx);
      SameWaits(c.(pending := c.pending[tx.key := tx]), Created(s, tx, now));
    }
  }

  /** When the monitor promises the key, it forgets nothing. */
  ghost predicate AgesOrderly(s: Tables, at: int, k: Key, now: int)
    requires k in s.aging
  {
    var tx := s.aging[k].tx;
    now - s.aging[k].time > at && Satisfied(s, tx.key.from, tx.key.num, tx.dep) ==> ForgetsNone(s, tx.key.from, tx.key.num)
  }

  lemma AgeOneLosesNone(s: Tables, at: int, k: Key, now: int)
    requires NoneLost(s) && k in s.aging
    ensures NoneLost(AgeOne(s, at, k, now)) <==> AgesOrderly(s, at, k, now)
  {
    var tx := s.aging[k].tx;
    var c := Checked(s, tx.key.from, tx.key.num, tx.dep);
    CheckedSettles(s, tx.key.from, tx.key.num, tx.dep);
    SettlingLosesNone(s, c);
    if now - s.aging[k].time > at && Satisfied(s, tx.key.from, tx.key.num, tx.dep) {
      assert c == s;
      PromiseLosesNone(s, tx.key.from, tx.key.num, tx.dep, true);
      SameWaits(Promised(s, tx.key.from, tx.key.num, tx.dep, true), AgeOne(s, at, k, now));
    }
  }

  /** Each promise of the pass forgets nothing. */
  ghost predicate PassOrderly(s: Tables, at: int, keys: seq<Key>, clock: seq<int>)
    requires |clock| == |keys|
    decreases |keys|
  {
    keys == [] ||
    if keys[0] in s.aging
    then AgesOrderly(s, at, keys[0], clock[0]) && PassOrderly(AgeOne(s, at, keys[0], clock[0]), at, keys[1..], clock[1..])
    else PassOrderly(s, at, keys[1..], clock[1..])
  }

  lemma {:induction false} AgePassLosesNone(s: Tables, at: int, keys: seq<Key>, clock: seq<int>)
    requires NoneLost(s) && |clock| == |keys|
    ensures PassOrderly(s, at, keys, clock) ==> NoneLost(AgePass(s, at, keys, clock))
    ensures |keys| <= 1 && NoneLost(AgePass(s, at, keys, clock)) ==> PassOrderly(s, at, keys, clock)
    decreases |keys|
  {
    if keys != [] {
      if keys[0] in s.aging {
        var s' := AgeOne(s, at, keys[0], clock[0]);
        AgeOneLosesNone(s, at, keys[0], clock[0]);
        if AgesOrderly(s, at, keys[0], clock[0]) {
          AgePassLosesNone(s', at, keys[1..], clock[1..]);
        } else if |keys| == 1 {
          assert AgePass(s', at, keys[1..], clock[1..]) == s';
        }
      } else {
        AgePassLosesNone(s, at, keys[1..], clock[1..]);
      }
    }
  }

  /** Exactly when committing a transaction loses no wake-up. */
  lemma CommittedLosesNone(s: Tables, tx: Tx)
    requires NoneLost(s)
    ensures NoneLost(Committed(s, tx)) <==> IsPromised(s, tx.key) || ForgetsNone(s, tx.key.from, tx.key.num)
  {
    if !IsPromised(s, tx.key) {
      var a := if tx.key in s.aged && s.aged[tx.key].tx == tx then s.(aged := s.aged - {tx.key}) else s;
      SameWaits(s, a);
      PromiseLosesNone(a, tx.key.from, tx.key.num, tx.dep, false);
      SameForgets(s, a, tx.key.from, tx.key.num);
    }
  }

  lemma SameForgets(s: Tables, s': Tables, from: Address, num: nat)
    requires s'.pending == s.pending && s'.next == s.next && s'.waiting == s.waiting
    ensures ForgetsNone(s, from, num) <==> ForgetsNone(s', from, num)
  {
    forall k | k in s.pending ensures Forgets(s, from, num, k) == Forgets(s', from, num, k) {
      SameForgetsOne(s, s', from, num, k);
    }
  }

  lemma SameForgetsOne(s: Tables, s': Tables, from: Address, num: nat, k: Key)
    requires s'.pending == s.pending && s'.next == s.next && s'.waiting == s.waiting && k in s.pending
    ensures Forgets(s, from, num, k) <==> Forgets(s', from, num, k)
  {
    hide Reached, Due, Missing, Advanced;
    SameAdvanced(s, s', from, num);
    SameReached(Advanced(s, from, num), Advanced(s', from, num), from, num, k);
    SameReached(s, s', from, num, k);
  }

  lemma SameAdvanced(s: Tables, s': Tables, from: Address, num: nat)
    requires s'.pending == s.pending && s'.next == s.next && s'.waiting == s.waiting
    ensures var v, v' := Advanced(s, from, num), Advanced(s', from, num);
      v.pending == s.pending && v'.pending == v.pending && v'.next == v.next && v'.waiting == v.waiting
  {
  }

  lemma SameReached(v: Tables, v': Tables, from: Address, num: nat, k: Key)
    requires v'.pending == v.pending && v'.next == v.next && v'.waiting == v.waiting && k in v.pending
    ensures Reached(v, from, num, k) <==> Reached(v', from, num, k)
    ensures Due(v, k) <==> Due(v', k)
    ensures Missing(v, Key(from, num, 0)) <==> Missing(v', Key(from, num, 0))
  {
  }

  // ---------- every reachable state ----------

  /** The operation registers what it makes pending, and forgets nothing that it promises. */
  ghost predicate Orderly(s: Tables, op: Op) {
    match op
    case Receive(tx, _) => !(IsNew(s, tx) && tx.key !in s.pending && Unregistered(s, tx))
    case Create(tx, _) => !Unregistered(s, tx)
    case Age(at, keys, clock) => |clock| == |keys| ==> PassOrderly(s, at, keys, clock)
    case Commit(tx) => IsPromised(s, tx.key) || ForgetsNone(s, tx.key.from, tx.key.num)
    case SeeInBlock(_) => true
  }

  /** A step that looks at one ageing key at most. */
  predicate OneKey(op: Op) {
    op.Age? ==> |op.keys| <= 1
  }

  /** An operation loses no wake-up exactly if it is orderly. */
  lemma ApplyLosesNone(s: Tables, op: Op)
    requires NoneLost(s)
    ensures Orderly(s, op) ==> NoneLost(Apply(s, op))
    ensures OneKey(op) && NoneLost(Apply(s, op)) ==> Orderly(s, op)
  {
    match op
    case Receive(tx, now) => VerifiedLosesNone(s, tx, now);
    case Create(tx, now) => CreatedLosesNone(s, tx, now);
    case Age(at, keys, clock) => if |clock| == |keys| { AgePassLosesNone(s, at, keys, clock); }
    case Commit(tx) => CommittedLosesNone(s, tx);
    case SeeInBlock(tx) =>
  }

  /** Every operation is orderly in the state it meets. */
  ghost predicate AllOrderly(ops: seq<Op>) {
    forall i :: 0 <= i < |ops| ==> Orderly(After(EMPTY, ops[..i]), ops[i])
  }

  /** No state on the way has lost a pending transaction. */
  ghost predicate NeverLost(ops: seq<Op>) {
    forall i :: 0 <= i <= |ops| ==> NoneLost(After(EMPTY, ops[..i]))
  }

  /** The prefixes of a sequence without its last operation. */
  lemma Prefixes(ops: seq<Op>, n: nat)
    requires n < |ops|
    ensures forall i :: 0 <= i <= n ==> ops[..n][..i] == ops[..i]
    ensures forall i :: 0 <= i < n ==> ops[..n][i] == ops[i]
  {
  }

  /**
   * No lost wake-up: as long as every operation is orderly, no pending transaction is ever forgotten; and if
   * the monitor is looked at key by key, no other sequence of operations does without a loss.
   */
  lemma {:induction false} NoLostWakeUp(ops: seq<Op>)
    ensures AllOrderly(ops) ==> NeverLost(ops)
    ensures (forall i :: 0 <= i < |ops| ==> OneKey(ops[i])) && NeverLost(ops) ==> AllOrderly(ops)
    decreases |ops|
  {
    if ops != [] {
      var n := |ops| - 1;
      Prefixes(ops, n);
      NoLostWakeUp(ops[..n]);
      if AllOrderly(ops) { LastStep(ops, n); }
      if NeverLost(ops) && forall i :: 0 <= i < |ops| ==> OneKey(ops[i]) {
        assert forall i :: 0 <= i < n ==> OneKey(ops[..n][i]);
        LastStepOrderly(ops, n);
      }
    }
  }

  lemma AfterLast(ops: seq<Op>, n: nat)
    requires |ops| == n + 1
    ensures ops[..|ops|] == ops && After(EMPTY, ops) == Apply(After(EMPTY, ops[..n]), ops[n])
  {
    assert ops[..|ops|] == ops;
  }

  lemma LastStep(ops: seq<Op>, n: nat)
    requires |ops| == n + 1 && AllOrderly(ops) && NeverLost(ops[..n])
    ensures NeverLost(ops)
  {
    hide After, Apply, Orderly, NoneLost;
    AfterLast(ops, n);
    Prefixes(ops, n);
    assert NoneLost(After(EMPTY, ops[..n][..n])) && Orderly(After(EMPTY, ops[..n]), ops[n]);
    ApplyLosesNone(After(EMPTY, ops[..n]), ops[n]);
    forall i | 0 <= i <= |ops| ensures NoneLost(After(EMPTY, ops[..i])) {
      if i <= n { assert NoneLost(After(EMPTY, ops[..n][..i])); }
    }
  }

  lemma LastStepOrderly(ops: seq<Op>, n: nat)
    requires |ops| == n + 1 && OneKey(ops[n]) && NeverLost(ops) && AllOrderly(ops[..n])
    ensures AllOrderly(ops)
  {
    hide After, Apply, Orderly, NoneLost;
    AfterLast(ops, n);
    Prefixes(ops, n);
    assert NoneLost(After(EMPTY, ops[..n])) && NoneLost(After(EMPTY, ops[..|ops|]));
    ApplyLosesNone(After(EMPTY, ops[..n]), ops[n]);
    forall i | 0 <= i < |ops| ensures Orderly(After(EMPTY, ops[..i]), ops[i]) {
      if i < n { assert Orderly(After(EMPTY, ops[..n][..i]), ops[..n][i]); }
    }
  }

  /** A pass of the monitor, one operation for each key. */
  function KeyByKey(at: int, keys: seq<Key>, clock: seq<int>): (ops: seq<Op>)
    requires |clock| == |keys|
    ensures forall i :: 0 <= i < |ops| ==> OneKey(ops[i])
    decreases |keys|
  {
    if keys == [] then [] else [Op.Age(at, keys[..1], clock[..1])] + KeyByKey(at, keys[1..], clock[1..])
  }

  lemma {:induction false} AfterFirst(s: Tables, op: Op, ops: seq<Op>)
    ensures After(s, [op] + ops) == After(Apply(s, op), ops)
    decreases |ops|
  {
    if ops == [] {
      assert [op] + ops == [op] && [op][..0] == [];
      assert After(s, [op][..0]) == s;
    } else {
      var n := |ops| - 1;
      assert ([op] + ops)[..n + 1] == [op] + ops[..n];
      AfterFirst(s, op, ops[..n]);
    }
  }

  /** Looking at the monitor key by key leaves out no behaviour. */
  lemma {:induction false} PassIsKeyByKey(s: Tables, at: int, keys: seq<Key>, clock: seq<int>)
    requires |clock| == |keys|
    ensures AgePass(s, at, keys, clock) == After(s, KeyByKey(at, keys, clock))
    decreases |keys|
  {
    if keys != [] {
      var first := Op.Age(at, keys[..1], clock[..1]);
      AfterFirst(s, first, KeyByKey(at, keys[1..], clock[1..]));
      PassIsKeyByKey(Apply(s, first), at, keys[1..], clock[1..]);
      FirstOfPass(s, at, keys, clock);
    }
  }

  lemma FirstOfPass(s: Tables, at: int, keys: seq<Key>, clock: seq<int>)
    requires |clock| == |keys| && keys != []
    ensures AgePass(Apply(s, Op.Age(at, keys[..1], clock[..1])), at, keys[1..], clock[1..]) == AgePass(s, at, keys, clock)
  {
    var s' := if keys[0] in s.aging then AgeOne(s, at, keys[0], clock[0]) else s;
    assert keys[..1][1..] == [] && clock[..1][1..] == [];
    assert AgePass(s', at, [], []) == s';
  }

  // ---------- printed texts ----------

  /** Keys and dependencies are spelled the way the node prints them. */
  ghost predicate Plain(s: Tables) {
    forall k :: k in s.pending ==> s.pending[k].key == k && k.spelling == 0 && s.pending[k].dep.spelling == 0
  }

  ghost predicate PlainTx(tx: Tx) {
    tx.key.spelling == 0 && tx.dep.spelling == 0
  }

  /** Some pending transaction waits for exactly this key. */
  ghost predicate AwaitedBySome(s: Tables, d: Key) {
    exists k :: k in s.pending && s.pending[k].dep == d
  }

  /** With printed texts, only a promise ahead of the turn can forget, and only those who wait for its key. */
  lemma PlainForgets(s: Tables, from: Address, num: nat)
    requires NoneLost(s) && Plain(s)
    ensures ForgetsNone(s, from, num) <==>
            num <= Next(s, from) || Key(from, num, 0) == NO_DEPENDENCY || !AwaitedBySome(s, Key(from, num, 0))
  {
    if num <= Next(s, from) {
      forall k | k in s.pending ensures !Forgets(s, from, num, k) {
        assert Awaited(s, k);
        if Forgets(s, from, num, k) { OnlyOddIsForgotten(s, from, num, k); }
      }
    } else if Key(from, num, 0) != NO_DEPENDENCY && AwaitedBySome(s, Key(from, num, 0)) {
      var k :| k in s.pending && s.pending[k].dep == Key(from, num, 0);
      assert Forgets(s, from, num, k);
    }
  }

  /** Texts are plain, and a commit ahead of its sender's turn is one nobody waits for. */
  ghost predicate PlainAndInTurn(s: Tables, op: Op) {
    match op
    case Receive(tx, _) => PlainTx(tx)
    case Create(tx, _) => PlainTx(tx)
    case Commit(tx) => tx.key.num <= Next(s, tx.key.from) || !AwaitedBySome(s, Key(tx.key.from, tx.key.num, 0))
    case _ => true
  }

  lemma PromiseStaysPlain(s: Tables, from: Address, num: nat, dep: Key, byAgeing: bool)
    requires Plain(s)
    ensures Plain(Promised(s, from, num, dep, byAgeing))
  {
    NotifyingSettles(Advanced(s, from, num), from, num);
  }

  lemma AgeOneStaysPlain(s: Tables, at: int, k: Key, now: int)
    requires NoneLost(s) && Plain(s) && k in s.aging
    ensures AgesOrderly(s, at, k, now) && Plain(AgeOne(s, at, k, now)) && NoneLost(AgeOne(s, at, k, now))
  {
    var tx := s.aging[k].tx;
    PlainForgets(s, tx.key.from, tx.key.num);
    PromiseStaysPlain(s, tx.key.from, tx.key.num, tx.dep, true);
    AgeOneLosesNone(s, at, k, now);
  }

  lemma {:induction false} PassStaysPlain(s: Tables, at: int, keys: seq<Key>, clock: seq<int>)
    requires NoneLost(s) && Plain(s) && |clock| == |keys|
    ensures PassOrderly(s, at, keys, clock) && Plain(AgePass(s, at, keys, clock))
    decreases |keys|
  {
    if keys != [] {
      if keys[0] in s.aging {
        AgeOneStaysPlain(s, at, keys[0], clock[0]);
        PassStaysPlain(AgeOne(s, at, keys[0], clock[0]), at, keys[1..], clock[1..]);
      } else {
        PassStaysPlain(s, at, keys[1..], clock[1..]);
      }
    }
  }

  lemma VerifiedStaysPlain(s: Tables, tx: Tx, now: int)
    requires Plain(s) && PlainTx(tx)
    ensures Plain(Verified(s, tx, now))
  {
    QueueStaysPlain(s, tx);
    var q := Queue(s, tx);
    SameWaits(q, q.(aging := q.aging[tx.key := Aging(tx, now)]));
  }

  lemma QueueStaysPlain(s: Tables, tx: Tx)
    requires Plain(s) && PlainTx(tx)
    ensures Plain(Queue(s, tx))
  {
    CheckedSettles(s, tx.key.from, tx.key.num, tx.dep);
  }

  lemma CreatedStaysPlain(s: Tables, tx: Tx, now: int)
    requires Plain(s) && PlainTx(tx)
    ensures Plain(Created(s, tx, now))
  {
    CheckedSettles(s.(aging := s.aging[tx.key := Aging(tx, now)]), tx.key.from, tx.key.num, tx.dep);
  }

  /** With printed texts and commits in turn, every operation is orderly. */
  lemma PlainIsOrderly(s: Tables, op: Op)
    requires NoneLost(s) && Plain(s) && PlainAndInTurn(s, op)
    ensures Orderly(s, op) && Plain(Apply(s, op))
  {
    match op
    case Receive(tx, now) => VerifiedStaysPlain(s, tx, now);
    case Create(tx, now) => CreatedStaysPlain(s, tx, now);
    case Age(at, keys, clock) => if |clock| == |keys| { PassStaysPlain(s, at, keys, clock); }
    case Commit(tx) =>
      if !IsPromised(s, tx.key) {
        PlainForgets(s, tx.key.from, tx.key.num);
        CommittedStaysPlain(s, tx);
      }
    case SeeInBlock(tx) =>
  }

  lemma CommittedStaysPlain(s: Tables, tx: Tx)
    requires Plain(s)
    ensures Plain(Committed(s, tx))
  {
    if !IsPromised(s, tx.key) {
      var a := if tx.key in s.aged && s.aged[tx.key].tx == tx then s.(aged := s.aged - {tx.key}) else s;
      SameWaits(s, a);
      PromiseStaysPlain(a, tx.key.from, tx.key.num, tx.dep, false);
    }
  }

  /** Printed texts and commits in turn are enough: no pending transaction is forgotten. */
  lemma {:induction false} PrintedTextsWakeUp(ops: seq<Op>)
    requires forall i :: 0 <= i < |ops| ==> PlainAndInTurn(After(EMPTY, ops[..i]), ops[i])
    ensures NoneLost(After(EMPTY, ops)) && Plain(After(EMPTY, ops))
    decreases |ops|
  {
    if ops != [] {
      var n := |ops| - 1;
      Prefixes(ops, n);
      forall i | 0 <= i < n ensures PlainAndInTurn(After(EMPTY, ops[..n][..i]), ops[..n][i]) {
        assert PlainAndInTurn(After(EMPTY, ops[..i]), ops[i]);
      }
      AfterLast(ops, n);
      PrintedTextsWakeUp(ops[..n]);
      PlainIsOrderly(After(EMPTY, ops[..n]), ops[n]);
      ApplyLosesNone(After(EMPTY, ops[..n]), ops[n]);
    }
  }

  // ---------- other spellings ----------

  /**
   * A fresh transaction whose dependency is spelled differently and not promised yet: the promise of that
   * dependency loses it if it is its own sender's first, and not the next one of the promised sender.
   */
  lemma OddSpellingIsLost(tx: Tx, d: Tx, now: int)
    requires Acceptable(tx) && Acceptable(d) && tx.key.spelling == 0
    requires d.key == Key(d.key.from, 0, 0) && tx.key.from != d.key.from
    requires tx.dep.from == d.key.from && tx.dep.num == 0 && tx.dep.spelling != 0
    ensures !NoneLost(After(EMPTY, [Receive(tx, now), Commit(d)])) <==> tx.key.num == 0
  {
    var a := Verified(EMPTY, tx, now);
    assert After(EMPTY, []) == EMPTY;
    assert [Receive(tx, now), Commit(d)][..1] == [Receive(tx, now)];
    assert [Receive(tx, now)][..0] == [];
    assert After(EMPTY, [Receive(tx, now)]) == a;
    hide NoneLost, Committed;
    VerifiedLosesNone(EMPTY, tx, now);
    CommittedLosesNone(a, d);
  }

  /** A transaction whose own key is spelled differently and that misses its dependency is lost on arrival. */
  lemma OddKeyIsLost(tx: Tx, now: int)
    requires Acceptable(tx) && tx.dep != NO_DEPENDENCY
    ensures NoneLost(After(EMPTY, [Receive(tx, now)])) <==> tx.key.spelling == 0
  {
    assert [Receive(tx, now)][..0] == [];
    assert After(EMPTY, []) == EMPTY;
    assert After(EMPTY, [Receive(tx, now)]) == Verified(EMPTY, tx, now);
    VerifiedLosesNone(EMPTY, tx, now);
  }
}
