/** Promises are gap-free per sender and respect the dependencies between transactions. */
module Causality {
  import opened Prelude
  import opened Ageing
  import opened Wakeups

  /** The numbers promised in turn for a sender, in order. */
  ghost function InTurn(log: seq<Entry>, a: Address): seq<nat> {
    if log == [] then []
    else
      var e := log[|log| - 1];
      InTurn(log[..|log| - 1], a) + if e.from == a && e.inTurn then [e.num] else []
  }

  ghost function UpTo(n: nat): seq<nat> {
    seq(n, i => i)
  }

  /** Before position j, (from, num) was promised in turn. */
  ghost predicate Before(log: seq<Entry>, j: nat, from: Address, num: nat)
    requires j <= |log|
  {
    exists i :: 0 <= i < j && log[i].from == from && log[i].num == num && log[i].inTurn
  }

  /** An ageing promise comes in turn, after its predecessor and after its explicit dependency. */
  ghost predicate Causal(log: seq<Entry>, j: nat)
    requires j < |log|
  {
    var e := log[j];
    e.byAgeing ==>
      && e.inTurn
      && (e.num > 0 ==> Before(log, j, e.from, e.num - 1))
      && (e.dep != NO_DEPENDENCY ==> Before(log, j, e.dep.from, e.dep.num))
  }

  /** The sequence numbers count the promises in turn, and every ageing promise is causal. */
  ghost predicate LogOk(s: Tables) {
    && (forall a :: InTurn(s.log, a) == UpTo(Next(s, a)))
    && (forall j :: 0 <= j < |s.log| ==> Causal(s.log, j))
  }

  lemma {:induction false} FindInTurn(log: seq<Entry>, a: Address, n: nat)
    requires n < |InTurn(log, a)|
    ensures Before(log, |log|, a, InTurn(log, a)[n])
    decreases |log|
  {
    var m := |log| - 1;
    if n < |InTurn(log[..m], a)| {
      FindInTurn(log[..m], a, n);
      var i :| 0 <= i < m && log[..m][i].from == a && log[..m][i].num == InTurn(log, a)[n] && log[..m][i].inTurn;
      assert log[i].num == InTurn(log, a)[n];
    } else {
      assert log[m].num == InTurn(log, a)[n];
    }
  }

  /** Whatever counts as promised was promised in turn. */
  lemma PromisedBefore(s: Tables, a: Address, n: nat)
    requires LogOk(s) && n < Next(s, a)
    ensures Before(s.log, |s.log|, a, n)
  {
    assert InTurn(s.log, a) == UpTo(Next(s, a));
    FindInTurn(s.log, a, n);
  }

  /** Appending one entry: its own causality decides. */
  lemma AppendKeepsCausal(log: seq<Entry>, e: Entry)
    requires forall j :: 0 <= j < |log| ==> Causal(log, j)
    requires Causal(log + [e], |log|)
    ensures forall j :: 0 <= j < |log| + 1 ==> Causal(log + [e], j)
  {
    forall j | 0 <= j < |log| ensures Causal(log + [e], j) {
      assert Causal(log, j);
      BeforeStays(log, e, j);
    }
  }

  lemma BeforeStays(log: seq<Entry>, e: Entry, j: nat)
    requires j <= |log|
    ensures forall from, num :: Before(log, j, from, num) ==> Before(log + [e], j, from, num)
  {
    forall from, num | Before(log, j, from, num) ensures Before(log + [e], j, from, num) {
      var i :| 0 <= i < j && log[i].from == from && log[i].num == num && log[i].inTurn;
      assert (log + [e])[i] == log[i];
    }
  }

  /** A promise keeps the log right; an ageing promise must be in turn with its dependency met. */
  lemma PromisedLogOk(s: Tables, from: Address, num: nat, dep: Key, byAgeing: bool)
    requires LogOk(s)
    requires byAgeing ==> Satisfied(s, from, num, dep)
    ensures LogOk(Promised(s, from, num, dep, byAgeing))
  {
    var v := Advanced(s, from, num);
    var p := Promised(s, from, num, dep, byAgeing);
    var e := Entry(from, num, dep, byAgeing, num == Next(s, from));
    NotifyingSettles(v, from, num);
    assert p.log == s.log + [e] && p.next == v.next;
    if byAgeing {
      if num > 0 {
        PromisedBefore(s, from, num - 1);
      }
      if dep != NO_DEPENDENCY {
        PromisedBefore(s, dep.from, dep.num);
      }
      BeforeStays(s.log, e, |s.log|);
    }
    AppendKeepsCausal(s.log, e);
  }

  lemma SameLog(s: Tables, s': Tables)
    requires LogOk(s) && s'.log == s.log && s'.next == s.next
    ensures LogOk(s')
  {
    forall a ensures InTurn(s'.log, a) == UpTo(Next(s', a)) {
      assert InTurn(s.log, a) == UpTo(Next(s, a));
    }
  }

  lemma AgeOneLogOk(s: Tables, at: int, k: Key, now: int)
    requires LogOk(s) && k in s.aging
    ensures LogOk(AgeOne(s, at, k, now))
  {
    var tx := s.aging[k].tx;
    var c := Checked(s, tx.key.from, tx.key.num, tx.dep);
    SameLog(s, c);
    if now - s.aging[k].time > at && Satisfied(s, tx.key.from, tx.key.num, tx.dep) {
      PromisedLogOk(c, tx.key.from, tx.key.num, tx.dep, true);
      SameLog(Promised(c, tx.key.from, tx.key.num, tx.dep, true), AgeOne(s, at, k, now));
    }
  }

  lemma {:induction false} AgePassLogOk(s: Tables, at: int, keys: seq<Key>, clock: seq<int>)
    requires LogOk(s) && |clock| == |keys|
    ensures LogOk(AgePass(s, at, keys, clock))
    decreases |keys|
  {
    if keys != [] {
      if keys[0] in s.aging {
        AgeOneLogOk(s, at, keys[0], clock[0]);
        AgePassLogOk(AgeOne(s, at, keys[0], clock[0]), at, keys[1..], clock[1..]);
      } else {
        AgePassLogOk(s, at, keys[1..], clock[1..]);
      }
    }
  }

  lemma CommittedLogOk(s: Tables, tx: Tx)
    requires LogOk(s)
    ensures LogOk(Committed(s, tx))
  {
    if !IsPromised(s, tx.key) {
      var a := if tx.key in s.aged && s.aged[tx.key].tx == tx then s.(aged := s.aged - {tx.key}) else s;
      SameLog(s, a);
      PromisedLogOk(a, tx.key.from, tx.key.num, tx.dep, false);
    }
  }

  lemma VerifiedPromisesNothing(s: Tables, tx: Tx, now: int)
    ensures Verified(s, tx, now).log == s.log && Verified(s, tx, now).next == s.next
  {
    QueueKeepsRecords(s, tx);
  }

  lemma CreatedPromisesNothing(s: Tables, tx: Tx, now: int)
    ensures Created(s, tx, now).log == s.log && Created(s, tx, now).next == s.next
  {
    CheckedSettles(s.(aging := s.aging[tx.key := Aging(tx, now)]), tx.key.from, tx.key.num, tx.dep);
  }

  lemma ApplyLogOk(s: Tables, op: Op)
    requires LogOk(s)
    ensures LogOk(Apply(s, op))
  {
    match op
    case Receive(tx, now) => VerifiedPromisesNothing(s, tx, now); SameLog(s, Verified(s, tx, now));
    case Create(tx, now) => CreatedPromisesNothing(s, tx, now); SameLog(s, Created(s, tx, now));
    case Age(at, keys, clock) => if |clock| == |keys| { AgePassLogOk(s, at, keys, clock); }
    case Commit(tx) => CommittedLogOk(s, tx);
    case SeeInBlock(tx) => SameLog(s, BlockTx(s, tx));
  }

  /** Causal, gap-free promises: in every reachable state, whatever the operations and the texts. */
  lemma {:induction false} PromisesAreCausal(ops: seq<Op>)
    ensures LogOk(After(EMPTY, ops))
    decreases |ops|
  {
    if ops == [] {
    } else {
      PromisesAreCausal(ops[..|ops| - 1]);
      ApplyLogOk(After(EMPTY, ops[..|ops| - 1]), ops[|ops| - 1]);
    }
  }

  // ---------- consequences ----------

  lemma {:induction false} InTurnPrefix(log: seq<Entry>, a: Address, j: nat)
    requires j <= |log|
    ensures InTurn(log[..j], a) <= InTurn(log, a)
    decreases |log|
  {
    if j < |log| {
      var m := |log| - 1;
      assert log[..m][..j] == log[..j];
      InTurnPrefix(log[..m], a, j);
    } else {
      assert log[..j] == log;
    }
  }

  /** The entry at position j in turn has the number of in-turn entries before it. */
  lemma NumIsCount(s: Tables, j: nat)
    requires LogOk(s) && j < |s.log| && s.log[j].inTurn
    ensures s.log[j].num == |InTurn(s.log[..j], s.log[j].from)|
    ensures |InTurn(s.log[..j + 1], s.log[j].from)| == s.log[j].num + 1
  {
    var a := s.log[j].from;
    assert s.log[..j + 1][..j] == s.log[..j];
    InTurnPrefix(s.log, a, j + 1);
    assert InTurn(s.log, a) == UpTo(Next(s, a));
    assert InTurn(s.log[..j + 1], a) == InTurn(s.log[..j], a) + [s.log[j].num];
    assert InTurn(s.log[..j + 1], a)[|InTurn(s.log[..j], a)|] == InTurn(s.log, a)[|InTurn(s.log[..j], a)|];
  }

  /** Later in-turn promises of a sender have larger numbers: nothing is promised in turn twice. */
  lemma InTurnOnce(s: Tables, i: nat, j: nat)
    requires LogOk(s) && i < j < |s.log| && s.log[i].inTurn && s.log[j].inTurn && s.log[i].from == s.log[j].from
    ensures s.log[i].num < s.log[j].num
  {
    NumIsCount(s, i);
    NumIsCount(s, j);
    assert s.log[..j][..i + 1] == s.log[..i + 1];
    InTurnPrefix(s.log[..j], s.log[i].from, i + 1);
  }

  /** No number is promised by ageing twice, in any reachable state. */
  lemma AgeingPromisesOnce(ops: seq<Op>, i: nat, j: nat)
    requires var log := After(EMPTY, ops).log;
      i < j < |log| && log[i].byAgeing && log[j].byAgeing && log[i].from == log[j].from
    ensures After(EMPTY, ops).log[i].num < After(EMPTY, ops).log[j].num
  {
    PromisesAreCausal(ops);
    var s := After(EMPTY, ops);
    assert Causal(s.log, i) && Causal(s.log, j);
    InTurnOnce(s, i, j);
  }

  // ---------- what the node's own transactions depend on ----------

  /** The last promised key is that of the last promise, and the empty dependency before there is one. */
  ghost predicate LastIsLogged(s: Tables) {
    s.lastPromised == if s.log == [] then NO_DEPENDENCY else Key(s.log[|s.log| - 1].from, s.log[|s.log| - 1].num, 0)
  }

  lemma PromiseIsLast(s: Tables, from: Address, num: nat, dep: Key, byAgeing: bool)
    ensures LastIsLogged(Promised(s, from, num, dep, byAgeing))
  {
    NotifyingSettles(Advanced(s, from, num), from, num);
  }

  lemma CheckedKeepsLast(s: Tables, from: Address, num: nat, d: Key)
    ensures LastIsLogged(Checked(s, from, num, d)) <==> LastIsLogged(s)
  {
    CheckedTables(s, from, num, d);
  }

  lemma {:induction false} AgePassKeepsLast(s: Tables, at: int, keys: seq<Key>, clock: seq<int>)
    requires LastIsLogged(s) && |clock| == |keys|
    ensures LastIsLogged(AgePass(s, at, keys, clock))
    decreases |keys|
  {
    if keys != [] {
      var k := keys[0];
      if k in s.aging {
        var tx := s.aging[k].tx;
        CheckedKeepsLast(s, tx.key.from, tx.key.num, tx.dep);
        PromiseIsLast(Checked(s, tx.key.from, tx.key.num, tx.dep), tx.key.from, tx.key.num, tx.dep, true);
        hide Promised, Checked;
        assert LastIsLogged(AgeOne(s, at, k, clock[0]));
      }
      AgePassKeepsLast(if k in s.aging then AgeOne(s, at, k, clock[0]) else s, at, keys[1..], clock[1..]);
    }
  }

  lemma ReceiveKeepsLast(s: Tables, tx: Tx, now: int)
    requires LastIsLogged(s)
    ensures LastIsLogged(Verified(s, tx, now))
  {
    hide Queue, Acceptable, Unseen;
    QueuedTables(s, tx);
    QueueKeepsRecords(s, tx);
  }

  lemma CreateKeepsLast(s: Tables, tx: Tx, now: int)
    requires LastIsLogged(s)
    ensures LastIsLogged(Created(s, tx, now))
  {
    hide Checked, Satisfied;
    var a := s.(aging := s.aging[tx.key := Aging(tx, now)]);
    CheckedTables(a, tx.key.from, tx.key.num, tx.dep);
    SameTables(a, Checked(a, tx.key.from, tx.key.num, tx.dep));
  }

  lemma ApplyKeepsLast(s: Tables, op: Op)
    requires LastIsLogged(s)
    ensures LastIsLogged(Apply(s, op))
  {
    match op
    case Receive(tx, now) => ReceiveKeepsLast(s, tx, now);
    case Create(tx, now) => CreateKeepsLast(s, tx, now);
    case Age(at, keys, clock) => if |clock| == |keys| { AgePassKeepsLast(s, at, keys, clock); }
    case Commit(tx) =>
      var a := if tx.key in s.aged && s.aged[tx.key].tx == tx then s.(aged := s.aged - {tx.key}) else s;
      PromiseIsLast(a, tx.key.from, tx.key.num, tx.dep, false);
      hide Promised;
    case SeeInBlock(tx) =>
  }

  /** In every reachable state, a transaction that the node creates depends on its last promise. */
  lemma {:induction false} CreatedDependsOnLast(ops: seq<Op>, from: Address, to: Address, amount: string, sign: string)
    ensures var s := After(EMPTY, ops); var tx := Fresh(s, from, to, amount, sign);
      && LastIsLogged(s) && tx.key.from == from && tx.to == to && tx.amount == amount && tx.sign == sign
      && tx.dep == if s.log == [] then NO_DEPENDENCY else Key(s.log[|s.log| - 1].from, s.log[|s.log| - 1].num, 0)
    decreases |ops|
  {
    if ops != [] {
      CreatedDependsOnLast(ops[..|ops| - 1], from, to, amount, sign);
      ApplyKeepsLast(After(EMPTY, ops[..|ops| - 1]), ops[|ops| - 1]);
    }
  }

  /** The numbers of a client's transactions that were created, in order. */
  ghost function CreatedNums(ops: seq<Op>, a: Address): seq<nat> {
    if ops == [] then []
    else
      var op := ops[|ops| - 1];
      CreatedNums(ops[..|ops| - 1], a) + if op.Create? && op.tx.key.from == a then [op.tx.key.num] else []
  }

  /** What is created is the client's next transaction. */
  ghost predicate Own(s: Tables, op: Op) {
    op.Create? ==> op.tx == Fresh(s, op.tx.key.from, op.tx.to, op.tx.amount, op.tx.sign)
  }

  /** The counters that only creations change. */
  lemma ApplyCounts(s: Tables, op: Op)
    ensures Apply(s, op).created == if op.Create? then s.created[op.tx.key.from := op.tx.key.num + 1] else s.created
  {
    match op
    case Receive(tx, now) => hide Queue; QueuedTables(s, tx);
    case Create(tx, now) =>
      CheckedTables(s.(aging := s.aging[tx.key := Aging(tx, now)]), tx.key.from, tx.key.num, tx.dep);
      hide Checked;
    case Age(at, keys, clock) => if |clock| == |keys| { AgePassCounts(s, at, keys, clock); }
    case Commit(tx) => CommittedCounts(s, tx);
    case SeeInBlock(tx) =>
  }

  lemma CommittedCounts(s: Tables, tx: Tx)
    ensures Committed(s, tx).created == s.created
  {
    var a := if tx.key in s.aged && s.aged[tx.key].tx == tx then s.(aged := s.aged - {tx.key}) else s;
    PromisedTables(a, tx.key.from, tx.key.num, tx.dep, false);
    hide Promised;
  }

  lemma {:induction false} AgePassCounts(s: Tables, at: int, keys: seq<Key>, clock: seq<int>)
    requires |clock| == |keys|
    ensures AgePass(s, at, keys, clock).created == s.created
    decreases |keys|
  {
    if keys != [] {
      var k := keys[0];
      if k in s.aging {
        var tx := s.aging[k].tx;
        CheckedTables(s, tx.key.from, tx.key.num, tx.dep);
        PromisedTables(Checked(s, tx.key.from, tx.key.num, tx.dep), tx.key.from, tx.key.num, tx.dep, true);
        hide Promised, Checked;
        assert AgeOne(s, at, k, clock[0]).created == s.created;
      }
      AgePassCounts(if k in s.aging then AgeOne(s, at, k, clock[0]) else s, at, keys[1..], clock[1..]);
    }
  }

  /** A client's transactions are numbered 0, 1, 2 and so on, in the order of their creation. */
  lemma {:induction false} CreatedInOrder(ops: seq<Op>, a: Address)
    requires forall i :: 0 <= i < |ops| ==> Own(After(EMPTY, ops[..i]), ops[i])
    ensures CreatedNums(ops, a) == UpTo(|CreatedNums(ops, a)|)
    ensures var c := After(EMPTY, ops).created; |CreatedNums(ops, a)| == if a in c then c[a] else 0
    decreases |ops|
  {
    if ops != [] {
      var n := |ops| - 1;
      Prefixes(ops, n);
      AfterLast(ops, n);
      hide After, Own, Apply;
      forall i | 0 <= i < n ensures Own(After(EMPTY, ops[..n][..i]), ops[..n][i]) {
        assert Own(After(EMPTY, ops[..i]), ops[i]);
      }
      CreatedInOrder(ops[..n], a);
      assert Own(After(EMPTY, ops[..n]), ops[n]);
      OneMoreCreated(ops, n, a, After(EMPTY, ops[..n]));
    }
  }

  lemma OneMoreCreated(ops: seq<Op>, n: nat, a: Address, s: Tables)
    requires |ops| == n + 1 && Own(s, ops[n]) && CreatedNums(ops[..n], a) == UpTo(|CreatedNums(ops[..n], a)|)
    requires |CreatedNums(ops[..n], a)| == if a in s.created then s.created[a] else 0
    ensures CreatedNums(ops, a) == UpTo(|CreatedNums(ops, a)|)
    ensures var c := Apply(s, ops[n]).created; |CreatedNums(ops, a)| == if a in c then c[a] else 0
  {
    hide Apply;
    ApplyCounts(s, ops[n]);
  }

  // ---------- transactions without explicit dependency, in blocks ----------

  /** The sender has had a promise in turn. */
  ghost predicate HasPromise(log: seq<Entry>, a: Address) {
    exists j :: 0 <= j < |log| && log[j].from == a && log[j].inTurn
  }

  lemma {:induction false} NothingInTurn(log: seq<Entry>, a: Address)
    ensures InTurn(log, a) != [] ==> HasPromise(log, a)
    ensures InTurn(log, a) == [] ==> !HasPromise(log, a)
    decreases |log|
  {
    if log != [] {
      var m := |log| - 1;
      NothingInTurn(log[..m], a);
      if HasPromise(log[..m], a) {
        var j :| 0 <= j < m && log[..m][j].from == a && log[..m][j].inTurn;
        assert log[j].from == a && log[j].inTurn;
      } else if HasPromise(log, a) {
        var j :| 0 <= j < |log| && log[j].from == a && log[j].inTurn;
        assert j < m ==> log[..m][j] == log[j];
      }
    }
  }

  /** The checks on a transaction in a received block other than the one on its dependency. */
  predicate OtherChecks(s: Tables, tx: Tx, rank: nat, lastRank: nat, at: int, d: int, discard: nat) {
    && Acceptable(tx) && tx.key.num <= Next(s, tx.key.from)
    && (tx.key in s.aged && s.aged[tx.key].tx == tx ==> RequiredSuffix(s.aged[tx.key], at, d, discard) <= SuffixSize(rank, lastRank))
  }

  /**
   * The empty dependency is not exempt from the check in a received block: such a transaction passes exactly
   * if it passes the other checks and the sender that the empty dependency names has had a promise in turn.
   */
  lemma EmptyDependencyInBlock(ops: seq<Op>, tx: Tx, rank: nat, lastRank: nat, at: int, d: int, discard: nat)
    requires tx.dep == NO_DEPENDENCY
    ensures var s := After(EMPTY, ops);
      BlockTxOk(s, tx, rank, lastRank, at, d, discard) <==>
      OtherChecks(s, tx, rank, lastRank, at, d, discard) && HasPromise(s.log, NO_DEPENDENCY.from)
  {
    var s := After(EMPTY, ops);
    var zero := NO_DEPENDENCY.from;
    PromisesAreCausal(ops);
    assert InTurn(s.log, zero) == UpTo(Next(s, zero));
    NothingInTurn(s.log, zero);
  }

  /**
   * More generally, a dependency passes the check exactly if it was promised in turn, before, under whatever
   * spelling.
   */
  lemma DependencyInBlock(ops: seq<Op>, k: Key)
    ensures var s := After(EMPTY, ops); IsPromised(s, k) <==> Before(s.log, |s.log|, k.from, k.num)
  {
    var s := After(EMPTY, ops);
    PromisesAreCausal(ops);
    if IsPromised(s, k) {
      PromisedBefore(s, k.from, k.num);
    }
    if Before(s.log, |s.log|, k.from, k.num) {
      var i :| 0 <= i < |s.log| && s.log[i].from == k.from && s.log[i].num == k.num && s.log[i].inTurn;
      NumIsCount(s, i);
      InTurnPrefix(s.log, k.from, i + 1);
      assert InTurn(s.log, k.from) == UpTo(Next(s, k.from));
    }
  }
}
