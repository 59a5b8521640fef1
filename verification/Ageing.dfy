/**
 * What each operation of the transaction-ageing layer does to a node's tables.
 *
 * A transaction is promised once it has aged undisturbed, or once a block holding it is committed.  The
 * operations are given as functions on the tables; AgeingNode runs them in place.
 */
module Ageing {
  import opened Prelude

  type Address = string

  const ADDRESS_CHARS: nat := 40

  /**
   * The text "sender:sequence".  `spelling` tells apart different texts of the same number, such as "7" and
   * "07"; spelling 0 is the one that printing the number gives.
   */
  datatype Key = Key(from: Address, num: nat, spelling: nat)

  /** The dependency of a transaction that has none. */
  const NO_DEPENDENCY: Key := Key("0000000000000000000000000000000000000000", 0, 0)

  datatype Tx = Tx(key: Key, to: Address, amount: string, dep: Key, sign: string)

  datatype Aging = Aging(tx: Tx, time: int)

  datatype Aged = Aged(tx: Tx, start: int, end: int)

  /** One promise: `inTurn` when it advanced the sender's sequence number. */
  datatype Entry = Entry(from: Address, num: nat, dep: Key, byAgeing: bool, inTurn: bool)

  datatype Tables = Tables(
    aging: map<Key, Aging>,
    aged: map<Key, Aged>,
    next: map<Address, nat>,
    pending: map<Key, Tx>,
    mempool: seq<Tx>,
    waiting: map<Key, seq<Key>>,
    lastPromised: Key,
    created: map<Address, nat>,
    log: seq<Entry>)

  const EMPTY: Tables := Tables(map[], map[], map[], map[], [], map[], NO_DEPENDENCY, map[], [])

  function Next(s: Tables, a: Address): nat {
    if a in s.next then s.next[a] else 0
  }

  predicate IsPromised(s: Tables, k: Key) {
    Next(s, k.from) > k.num
  }

  /** The keys registered under a dependency. */
  function Waiters(s: Tables, d: Key): seq<Key> {
    if d in s.waiting then s.waiting[d] else []
  }

  /** The explicit dependency still has to be promised. */
  predicate Missing(s: Tables, d: Key) {
    d != NO_DEPENDENCY && !IsPromised(s, d)
  }

  /** Registers the key printed from (from, num) under the dependency, once. */
  function SaveDependency(s: Tables, from: Address, num: nat, d: Key): Tables {
    if Key(from, num, 0) in Waiters(s, d) then s
    else s.(waiting := s.waiting[d := Waiters(s, d) + [Key(from, num, 0)]])
  }

  /** The tables after a dependency check: a missing explicit dependency is registered. */
  function Checked(s: Tables, from: Address, num: nat, d: Key): Tables {
    if Missing(s, d) then SaveDependency(s, from, num, d) else s
  }

  /** The verdict of a dependency check. */
  predicate Satisfied(s: Tables, from: Address, num: nat, d: Key) {
    !Missing(s, d) && Next(s, from) == num
  }

  // ---------- receiving and creating transactions ----------

  predicate Acceptable(tx: Tx) {
    |tx.key.from| == ADDRESS_CHARS && |tx.to| == ADDRESS_CHARS && |tx.amount| > 0
  }

  /** The node has no record of the key. */
  predicate Unseen(s: Tables, k: Key) {
    k !in s.aging && !IsPromised(s, k) && k !in s.aged
  }

  /** Queues a transaction: pending while its dependencies are unmet, unless it is pending already. */
  function Queue(s: Tables, tx: Tx): Tables {
    var c := Checked(s, tx.key.from, tx.key.num, tx.dep);
    if !Satisfied(s, tx.key.from, tx.key.num, tx.dep) && tx.key !in c.pending
    then c.(pending := c.pending[tx.key := tx])
    else c.(mempool := c.mempool + [tx])
  }

  predicate IsNew(s: Tables, tx: Tx) {
    Acceptable(tx) && Unseen(s, tx.key)
  }

  /** A transaction arrives: a new key starts ageing, a second transaction for an ageing key ends its ageing. */
  function Verified(s: Tables, tx: Tx, now: int): Tables {
    if !Acceptable(tx) then s
    else if Unseen(s, tx.key) then
      var q := Queue(s, tx);
      q.(aging := q.aging[tx.key := Aging(tx, now)])
    else if tx.key in s.aging && s.aging[tx.key].tx != tx then
      s.(aged := s.aged[tx.key := Aged(s.aging[tx.key].tx, s.aging[tx.key].time, now)], aging := s.aging - {tx.key})
    else s
  }

  /** The next transaction of one of the node's own clients. */
  function Fresh(s: Tables, from: Address, to: Address, amount: string, sign: string): Tx {
    Tx(Key(from, if from in s.created then s.created[from] else 0, 0), to, amount, s.lastPromised, sign)
  }

  function Created(s: Tables, tx: Tx, now: int): Tables {
    var a := s.(aging := s.aging[tx.key := Aging(tx, now)]);
    var c := Checked(a, tx.key.from, tx.key.num, tx.dep);
    var q := if Satisfied(a, tx.key.from, tx.key.num, tx.dep) then c.(mempool := c.mempool + [tx])
             else c.(pending := c.pending[tx.key := tx]);
    q.(created := q.created[tx.key.from := tx.key.num + 1])
  }

  // ---------- promising ----------

  /** Moves a pending transaction to the mempool. */
  function Move(s: Tables, k: Key): Tables
    requires k in s.pending
  {
    s.(mempool := s.mempool + [s.pending[k]], pending := s.pending - {k})
  }

  /** Re-checks one pending key against the sequence number `num` of `from`. */
  function Woken(s: Tables, from: Address, num: nat, k: Key): Tables
    requires k in s.pending
  {
    if Satisfied(s, from, num, s.pending[k].dep) then Move(s, k) else Checked(s, from, num, s.pending[k].dep)
  }

  /** The implicit dependency: the sender's next transaction. */
  function NotifyNext(s: Tables, from: Address): Tables {
    var k := Key(from, Next(s, from), 0);
    if k in s.pending then Woken(s, from, Next(s, from), k) else s
  }

  /** The explicit dependents, in registration order; the sender's next transaction was handled before. */
  function NotifyAll(s: Tables, from: Address, num: nat, ks: seq<Key>): Tables
    decreases |ks|
  {
    if ks == [] then s
    else
      var s' := if ks[0] == Key(from, num, 0) || ks[0] !in s.pending then s else Woken(s, from, num, ks[0]);
      NotifyAll(s', from, num, ks[1..])
  }

  function Notified(s: Tables, from: Address, num: nat): Tables {
    var a := NotifyNext(s, from);
    var b := NotifyAll(a, from, Next(s, from), Waiters(a, Key(from, num, 0)));
    b.(waiting := b.waiting[Key(from, num, 0) := []])
  }

  /** The sequence number advances only for the transaction that is next in turn. */
  function Advanced(s: Tables, from: Address, num: nat): Tables {
    if num == Next(s, from) then s.(next := s.next[from := num + 1]) else s
  }

  function Promised(s: Tables, from: Address, num: nat, dep: Key, byAgeing: bool): Tables {
    var n := Notified(Advanced(s, from, num), from, num);
    n.(lastPromised := Key(from, num, 0), log := n.log + [Entry(from, num, dep, byAgeing, num == Next(s, from))])
  }

  /** The ageing monitor looks at one ageing key. */
  function AgeOne(s: Tables, at: int, k: Key, now: int): Tables
    requires k in s.aging
  {
    var tx := s.aging[k].tx;
    if now - s.aging[k].time > at then
      var c := Checked(s, tx.key.from, tx.key.num, tx.dep);
      if Satisfied(s, tx.key.from, tx.key.num, tx.dep) then
        var p := Promised(c, tx.key.from, tx.key.num, tx.dep, true);
        p.(aging := p.aging - {k})
      else c
    else s
  }

  /** One pass of the ageing monitor over the given keys, reading the clock for each. */
  function AgePass(s: Tables, at: int, keys: seq<Key>, clock: seq<int>): Tables
    requires |clock| == |keys|
    decreases |keys|
  {
    if keys == [] then s
    else
      AgePass(if keys[0] in s.aging then AgeOne(s, at, keys[0], clock[0]) else s, at, keys[1..], clock[1..])
  }

  /** A committed block holds the transaction. */
  function Committed(s: Tables, tx: Tx): Tables {
    if IsPromised(s, tx.key) then s
    else
      var a := if tx.key in s.aged && s.aged[tx.key].tx == tx then s.(aged := s.aged - {tx.key}) else s;
      Promised(a, tx.key.from, tx.key.num, tx.dep, false)
  }

  // ---------- what these operations do to each table ----------

  lemma CheckedTables(s: Tables, from: Address, num: nat, d: Key)
    ensures Checked(s, from, num, d).(waiting := s.waiting) == s
  {
  }

  lemma QueuedTables(s: Tables, tx: Tx)
    ensures var q, ready := Queue(s, tx), Satisfied(s, tx.key.from, tx.key.num, tx.dep);
      && q.mempool == (if ready || tx.key in s.pending then s.mempool + [tx] else s.mempool)
      && q.pending == (if !ready && tx.key !in s.pending then s.pending[tx.key := tx] else s.pending)
      && q.aging == s.aging && q.aged == s.aged && q.next == s.next && q.lastPromised == s.lastPromised && q.created == s.created
  {
    hide Checked, Satisfied;
    CheckedTables(s, tx.key.from, tx.key.num, tx.dep);
    SameTables(s, Checked(s, tx.key.from, tx.key.num, tx.dep));
  }

  lemma SameTables(s: Tables, c: Tables)
    requires c.(waiting := s.waiting) == s
    ensures c.mempool == s.mempool && c.pending == s.pending && c.aging == s.aging && c.aged == s.aged && c.next == s.next
    ensures c.lastPromised == s.lastPromised && c.created == s.created && c.log == s.log
  {
  }

  lemma {:induction false} NotifiedTables(s: Tables, from: Address, num: nat, ks: seq<Key>)
    ensures var n := NotifyAll(s, from, num, ks); n.next == s.next && n.created == s.created && n.aging == s.aging && n.aged == s.aged
    decreases |ks|
  {
    if ks != [] {
      if ks[0] in s.pending { CheckedTables(s, from, num, s.pending[ks[0]].dep); }
      hide Checked;
      NotifiedTables(if ks[0] == Key(from, num, 0) || ks[0] !in s.pending then s else Woken(s, from, num, ks[0]), from, num, ks[1..]);
    }
  }

  lemma PromisedTables(s: Tables, from: Address, num: nat, dep: Key, byAgeing: bool)
    ensures var p := Promised(s, from, num, dep, byAgeing);
      p.lastPromised == Key(from, num, 0) && p.created == s.created && p.aging == s.aging && p.aged == s.aged
      && p.next == if num == (if from in s.next then s.next[from] else 0) then s.next[from := num + 1] else s.next
  {
    hide Notified;
    NotifiedNext(Advanced(s, from, num), from, num);
  }

  lemma NotifiedNext(v: Tables, from: Address, num: nat)
    ensures var n := Notified(v, from, num); n.next == v.next && n.created == v.created && n.aging == v.aging && n.aged == v.aged
  {
    var x := Key(from, Next(v, from), 0);
    if x in v.pending { CheckedTables(v, from, Next(v, from), v.pending[x].dep); }
    var a := NotifyNext(v, from);
    NotifiedTables(a, from, Next(v, from), Waiters(a, Key(from, num, 0)));
    hide NotifyAll, Checked;
  }

  // ---------- transactions inside received blocks ----------

  /** How many blocks a transaction must be buried under, given how long it aged before a conflict. */
  function RequiredSuffix(info: Aged, at: int, d: int, discard: nat): nat {
    if info.end - info.start >= at - 2 * d then discard else 0
  }

  /** 32-bit difference of the ranks. */
  function SuffixSize(rank: nat, lastRank: nat): nat {
    ((lastRank as int - rank as int) % (U32 as int)) as nat
  }

  predicate BlockTxOk(s: Tables, tx: Tx, rank: nat, lastRank: nat, at: int, d: int, discard: nat) {
    && Acceptable(tx) && tx.key.num <= Next(s, tx.key.from) && IsPromised(s, tx.dep)
    && !(tx.key in s.aged && s.aged[tx.key].tx == tx && RequiredSuffix(s.aged[tx.key], at, d, discard) > SuffixSize(rank, lastRank))
  }

  /**
   * How deep a disturbed transaction must be buried in a received block.  The depth is the distance of the ranks in
   * 32-bit arithmetic, so a block that ranks above the end of its chain counts as buried deeply.
   */
  lemma DisturbedInBlock(s: Tables, tx: Tx, rank: nat, lastRank: nat, at: int, d: int, discard: nat)
    requires tx.key in s.aged && s.aged[tx.key].tx == tx && rank < 0x1_0000_0000 && lastRank < 0x1_0000_0000
    ensures var info := s.aged[tx.key];
      BlockTxOk(s, tx, rank, lastRank, at, d, discard) <==>
      (
        && |tx.key.from| == 40 && |tx.to| == 40 && tx.amount != ""
        && tx.key.num <= (if tx.key.from in s.next then s.next[tx.key.from] else 0)
        && tx.dep.num < (if tx.dep.from in s.next then s.next[tx.dep.from] else 0)
        && (info.end - info.start < at - 2 * d ||
            if rank <= lastRank then lastRank - rank >= discard else 0x1_0000_0000 - (rank - lastRank) >= discard))
  {
  }

  /** Any other transaction needs no depth. */
  lemma UndisturbedInBlock(s: Tables, tx: Tx, rank: nat, lastRank: nat, at: int, d: int, discard: nat)
    requires tx.key !in s.aged || s.aged[tx.key].tx != tx
    ensures BlockTxOk(s, tx, rank, lastRank, at, d, discard) <==> (
        && |tx.key.from| == 40 && |tx.to| == 40 && tx.amount != ""
        && tx.key.num <= (if tx.key.from in s.next then s.next[tx.key.from] else 0)
        && tx.dep.num < (if tx.dep.from in s.next then s.next[tx.dep.from] else 0))
  {
  }

  /** A transaction seen in a block leaves the pending table or the mempool. */
  function BlockTx(s: Tables, tx: Tx): Tables {
    if !(Acceptable(tx) && tx.key.num <= Next(s, tx.key.from) && IsPromised(s, tx.dep)) then s
    else if tx.key in s.pending then s.(pending := s.pending - {tx.key})
    else s.(mempool := DropFirst(s.mempool, tx.key))
  }

  function DropFirst(m: seq<Tx>, k: Key): seq<Tx> {
    if m == [] then [] else if m[0].key == k then m[1..] else [m[0]] + DropFirst(m[1..], k)
  }

  /** Transactions of other keys in front stay in front. */
  lemma {:induction false} DropFirstSkips(a: seq<Tx>, m: seq<Tx>, k: Key)
    requires forall j :: 0 <= j < |a| ==> a[j].key != k
    ensures DropFirst(a + m, k) == a + DropFirst(m, k)
    decreases |a|
  {
    if a == [] {
      assert a + m == m;
    } else {
      DropFirstSkips(a[1..], m, k);
      assert (a + m)[1..] == a[1..] + m;
      assert [a[0]] + (a[1..] + DropFirst(m, k)) == a + DropFirst(m, k);
    }
  }

  // ---------- operations in sequence ----------

  datatype Op =
    | Receive(tx: Tx, now: int)
    | Create(tx: Tx, now: int)
    | Age(at: int, keys: seq<Key>, clock: seq<int>)
    | Commit(tx: Tx)
    | SeeInBlock(tx: Tx)

  function Apply(s: Tables, op: Op): Tables {
    match op
    case Receive(tx, now) => Verified(s, tx, now)
    case Create(tx, now) => Created(s, tx, now)
    case Age(at, keys, clock) => if |clock| == |keys| then AgePass(s, at, keys, clock) else s
    case Commit(tx) => Committed(s, tx)
    case SeeInBlock(tx) => BlockTx(s, tx)
  }

  function After(s: Tables, ops: seq<Op>): Tables
    decreases |ops|
  {
    if ops == [] then s else Apply(After(s, ops[..|ops| - 1]), ops[|ops| - 1])
  }
}
