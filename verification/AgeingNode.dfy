/** The tables of one node, changed in place by the operations of the ageing layer. */
module AgeingNode {
  import opened Prelude
  import opened Ageing

  class Node {
    var aging: map<Key, Aging>
    var aged: map<Key, Aged>
    var next: map<Address, nat>
    var pending: map<Key, Tx>
    var mempool: seq<Tx>
    var waiting: map<Key, seq<Key>>
    var lastPromised: Key
    var created: map<Address, nat>
    ghost var log: seq<Entry>

    ghost function State(): Tables
      reads this
    {
      Tables(aging, aged, next, pending, mempool, waiting, lastPromised, created, log)
    }

    constructor ()
      ensures State() == EMPTY
    {
      aging, aged, next, pending, mempool := map[], map[], map[], map[], [];
      waiting, lastPromised, created, log := map[], NO_DEPENDENCY, map[], [];
    }

    method NextSeq(a: Address) returns (n: nat)
      ensures n == Next(State(), a)
    {
      n := if a in next then next[a] else 0;
    }

    method SaveDependency(from: Address, num: nat, d: Key)
      modifies this`waiting
      ensures State() == Ageing.SaveDependency(old(State()), from, num, d)
    {
      var key := Key(from, num, 0);
      var registered := if d in waiting then waiting[d] else [];
      if key !in registered {
        waiting := waiting[d := registered + [key]];
      }
    }

    method CheckDependencies(from: Address, num: nat, d: Key) returns (ok: bool)
      modifies this`waiting
      ensures State() == Checked(old(State()), from, num, d)
      ensures ok == Satisfied(old(State()), from, num, d)
      ensures ok <==> (d == NO_DEPENDENCY || d.num < (if d.from in next then next[d.from] else 0))
                      && num == if from in next then next[from] else 0
    {
      if d != NO_DEPENDENCY {
        var n := NextSeq(d.from);
        if n <= d.num {
          SaveDependency(from, num, d);
          return false;
        }
      }
      var n := NextSeq(from);
      ok := n == num;
    }

    /** The short-circuit order matters: the check registers the key even when it is pending already. */
    method Queue(tx: Tx)
      modifies this`waiting, this`pending, this`mempool
      ensures State() == Ageing.Queue(old(State()), tx)
      ensures var ready := (tx.dep == NO_DEPENDENCY || tx.dep.num < (if tx.dep.from in next then next[tx.dep.from] else 0))
          && tx.key.num == if tx.key.from in next then next[tx.key.from] else 0;
        && mempool == (if ready || tx.key in old(pending) then old(mempool) + [tx] else old(mempool))
        && pending == (if ready || tx.key in old(pending) then old(pending) else old(pending)[tx.key := tx])
    {
      var ok := CheckDependencies(tx.key.from, tx.key.num, tx.dep);
      if !ok && tx.key !in pending {
        pending := pending[tx.key := tx];
      } else {
        mempool := mempool + [tx];
      }
    }

    method VerifyTransaction(tx: Tx, now: int) returns (isNew: bool)
      modifies this
      ensures State() == Verified(old(State()), tx, now)
      ensures isNew == IsNew(old(State()), tx)
      ensures isNew <==>
        && |tx.key.from| == 40 && |tx.to| == 40 && tx.amount != "" && tx.key !in old(aging) && tx.key !in old(aged)
        && (if tx.key.from in next then next[tx.key.from] else 0) <= tx.key.num
      ensures next == old(next) && created == old(created) && lastPromised == old(lastPromised)
      ensures isNew ==> aging == old(aging)[tx.key := Aging(tx, now)] && aged == old(aged)
      ensures !isNew ==>
        var conflict := |tx.key.from| == 40 && |tx.to| == 40 && tx.amount != "" && tx.key in old(aging) && old(aging)[tx.key].tx != tx;
        && mempool == old(mempool) && pending == old(pending) && waiting == old(waiting)
        && aging == (if conflict then old(aging) - {tx.key} else old(aging))
        && aged == if conflict then old(aged)[tx.key := Aged(old(aging)[tx.key].tx, old(aging)[tx.key].time, now)] else old(aged)
    {
      isNew := false;
      if |tx.key.from| != ADDRESS_CHARS || |tx.to| != ADDRESS_CHARS || |tx.amount| <= 0 {
        return;
      }
      var n := NextSeq(tx.key.from);
      if tx.key !in aging && n <= tx.key.num && tx.key !in aged {
        Queue(tx);
        aging := aging[tx.key := Aging(tx, now)];
        isNew := true;
      } else if tx.key in aging {
        var previous := aging[tx.key];
        if previous.tx != tx {
          aged := aged[tx.key := Aged(previous.tx, previous.time, now)];
          aging := aging - {tx.key};
        }
      }
    }

    method CreateTransaction(from: Address, to: Address, amount: string, sign: string, now: int) returns (tx: Tx)
      modifies this
      ensures tx == Fresh(old(State()), from, to, amount, sign)
      ensures State() == Created(old(State()), tx, now)
      ensures tx.key == Key(from, if from in old(created) then old(created)[from] else 0, 0)
      ensures tx.to == to && tx.amount == amount && tx.sign == sign && tx.dep == old(lastPromised)
      ensures created == old(created)[from := tx.key.num + 1] && aging == old(aging)[tx.key := Aging(tx, now)]
      ensures next == old(next) && aged == old(aged) && lastPromised == old(lastPromised)
      ensures var ready := (tx.dep == NO_DEPENDENCY || tx.dep.num < (if tx.dep.from in next then next[tx.dep.from] else 0))
          && tx.key.num == if from in next then next[from] else 0;
        && mempool == (if ready then old(mempool) + [tx] else old(mempool))
        && pending == (if ready then old(pending) else old(pending)[tx.key := tx])
    {
      var num := if from in created then created[from] else 0;
      tx := Tx(Key(from, num, 0), to, amount, lastPromised, sign);
      aging := aging[tx.key := Aging(tx, now)];
      var ok := CheckDependencies(from, num, tx.dep);
      if !ok {
        pending := pending[tx.key := tx];
      } else {
        mempool := mempool + [tx];
      }
      created := created[from := num + 1];
    }

    /** Re-checks a pending key and moves it when its dependencies are met. */
    method Wake(from: Address, num: nat, k: Key)
      requires k in pending
      modifies this`waiting, this`pending, this`mempool
      ensures State() == Woken(old(State()), from, num, k)
    {
      var tx := pending[k];
      var ok := CheckDependencies(from, num, tx.dep);
      if ok {
        mempool := mempool + [tx];
        pending := pending - {k};
      }
    }

    method NotifyDependencies(from: Address, num: nat)
      modifies this`waiting, this`pending, this`mempool
      ensures State() == Notified(old(State()), from, num)
    {
      var key := Key(from, num, 0);
      var nextNum := NextSeq(from);
      var nextKey := Key(from, nextNum, 0);
      if nextKey in pending {
        Wake(from, nextNum, nextKey);
      }
      assert State() == NotifyNext(old(State()), from);
      var dependents := if key in waiting then waiting[key] else [];
      ghost var goal := NotifyAll(State(), from, nextNum, dependents);
      var i := 0;
      while i < |dependents|
        invariant 0 <= i <= |dependents|
        invariant NotifyAll(State(), from, nextNum, dependents[i..]) == goal
      {
        var k := dependents[i];
        if k != nextKey && k in pending {
          Wake(from, nextNum, k);
        }
        assert dependents[i..][1..] == dependents[i + 1..];
        i := i + 1;
      }
      waiting := waiting[key := []];
    }

    method PromiseTransaction(from: Address, num: nat, ghost dep: Key, ghost byAgeing: bool)
      modifies this
      ensures State() == Promised(old(State()), from, num, dep, byAgeing)
      ensures lastPromised == Key(from, num, 0) && aging == old(aging) && aged == old(aged) && created == old(created)
      ensures var n := if from in old(next) then old(next)[from] else 0; next == if num == n then old(next)[from := num + 1] else old(next)
    {
      PromisedTables(State(), from, num, dep, byAgeing);
      ghost var inTurn := num == Next(State(), from);
      var n := NextSeq(from);
      if num == n {
        next := next[from := n + 1];
      }
      assert State() == Advanced(old(State()), from, num);
      NotifyDependencies(from, num);
      lastPromised := Key(from, num, 0);
      log := log + [Entry(from, num, dep, byAgeing, inTurn)];
    }

    /** One look of the monitor at an ageing key. */
    method AgeKey(at: int, k: Key, now: int)
      requires k in aging
      modifies this
      ensures State() == AgeOne(old(State()), at, k, now)
      ensures var a, n := old(aging[k]), old(next);
        var ripe := now - a.time > at && (a.tx.dep == NO_DEPENDENCY || a.tx.dep.num < if a.tx.dep.from in n then n[a.tx.dep.from] else 0)
          && a.tx.key.num == if a.tx.key.from in n then n[a.tx.key.from] else 0;
        && next == (if ripe then n[a.tx.key.from := a.tx.key.num + 1] else n)
        && aging == (if ripe then old(aging) - {k} else old(aging)) && aged == old(aged) && created == old(created)
        && lastPromised == if ripe then Key(a.tx.key.from, a.tx.key.num, 0) else old(lastPromised)
    {
      var tx, age := aging[k].tx, now - aging[k].time;
      if age > at {
        var ok := CheckDependencies(tx.key.from, tx.key.num, tx.dep);
        if ok {
          PromiseTransaction(tx.key.from, tx.key.num, tx.dep, true);
          aging := aging - {k};
        }
      }
    }

    /** One pass of the ageing monitor; `keys` is the order in which the table is visited. */
    method AgingPass(at: int, keys: seq<Key>, clock: seq<int>)
      requires |clock| == |keys|
      modifies this
      ensures State() == AgePass(old(State()), at, keys, clock)
    {
      ghost var goal := AgePass(State(), at, keys, clock);
      var i := 0;
      while i < |keys|
        invariant 0 <= i <= |keys|
        invariant AgePass(State(), at, keys[i..], clock[i..]) == goal
      {
        if keys[i] in aging {
          AgeKey(at, keys[i], clock[i]);
        }
        assert keys[i..][1..] == keys[i + 1..] && clock[i..][1..] == clock[i + 1..];
        i := i + 1;
      }
    }

    /** One transaction of a committed block. */
    method CommitTransaction(tx: Tx)
      modifies this
      ensures State() == Committed(old(State()), tx)
      ensures var n := if tx.key.from in old(next) then old(next)[tx.key.from] else 0;
        && next == (if tx.key.num == n then old(next)[tx.key.from := n + 1] else old(next))
        && (tx.key.num >= n ==> lastPromised == Key(tx.key.from, tx.key.num, 0))
        && (tx.key.num < n ==> State() == old(State()))
        && aging == old(aging) && created == old(created)
        && aged == if tx.key.num >= n && tx.key in old(aged) && old(aged)[tx.key].tx == tx then old(aged) - {tx.key} else old(aged)
    {
      var n := NextSeq(tx.key.from);
      if n <= tx.key.num {
        if tx.key in aged && aged[tx.key].tx == tx {
          aged := aged - {tx.key};
        }
        PromiseTransaction(tx.key.from, tx.key.num, tx.dep, false);
      }
    }

    method RemoveFromMempool(k: Key)
      modifies this`mempool
      ensures State() == old(State()).(mempool := DropFirst(old(mempool), k))
    {
      var i := 0;
      while i < |mempool| && mempool[i].key != k
        invariant 0 <= i <= |mempool| && mempool == old(mempool) && forall j :: 0 <= j < i ==> mempool[j].key != k
      {
        i := i + 1;
      }
      DropFirstSkips(mempool[..i], mempool[i..], k);
      assert mempool[..i] + mempool[i..] == mempool;
      if i < |mempool| {
        assert mempool[i..][1..] == mempool[i + 1..];
        mempool := mempool[..i] + mempool[i + 1..];
      }
    }

    method VerifyTransactionFromBlock(tx: Tx, rank: nat, lastRank: nat, at: int, d: int,
        discard: nat) returns (ok: bool)
      modifies this`pending, this`mempool
      ensures State() == BlockTx(old(State()), tx)
      ensures ok == BlockTxOk(old(State()), tx, rank, lastRank, at, d, discard)
      ensures rank < 0x1_0000_0000 && lastRank < 0x1_0000_0000 ==>
        (ok <==>
          && |tx.key.from| == 40 && |tx.to| == 40 && tx.amount != ""
          && tx.key.num <= (if tx.key.from in next then next[tx.key.from] else 0)
          && tx.dep.num < (if tx.dep.from in next then next[tx.dep.from] else 0)
          && (tx.key in aged && aged[tx.key].tx == tx && aged[tx.key].end - aged[tx.key].start >= at - 2 * d ==>
                discard <= if rank <= lastRank then lastRank - rank else lastRank + 0x1_0000_0000 - rank))
    {
      var n := NextSeq(tx.key.from);
      var m := NextSeq(tx.dep.from);
      if |tx.key.from| != ADDRESS_CHARS || |tx.to| != ADDRESS_CHARS || |tx.amount| <= 0 || tx.key.num > n || m <= tx.dep.num {
        return false;
      }
      if tx.key in pending {
        pending := pending - {tx.key};
      } else {
        RemoveFromMempool(tx.key);
      }
      ok := !(tx.key in aged && aged[tx.key].tx == tx && RequiredSuffix(aged[tx.key], at, d, discard) > SuffixSize(rank, lastRank));
    }
  }
}
