/**
 * Runs of the timed network that show where its theorems end: delays beyond the threshold, other spellings,
 * outside conflicts that reach nodes late, and keys that are created again.
 */
module AgeingRuns {
  import opened Prelude
  import opened Ageing
  import opened Wakeups
  import opened AgeingNetwork
  import opened AgeingInvariant
  import opened AgeingSafety

  // ---------- runs grow by one event ----------

  lemma Stay(net: Net, at: int, d: int)
    ensures Leads(net, net, at, d)
  {
    var es: seq<Event> := [];
    assert IsPath([net], es, at, d) && [net][0] == net && [net][|es|] == net;
  }

  lemma OneMore(start: Net, net: Net, at: int, d: int, e: Event)
    requires Leads(start, net, at, d) && Enabled(net, d, e)
    ensures Leads(start, Step(net, at, d, e), at, d)
  {
    var nets, es :| IsPath(nets, es, at, d) && nets[0] == start && nets[|es|] == net;
    var more, ems := nets + [Step(net, at, d, e)], es + [e];
    forall i | 0 <= i < |ems| ensures Happens(more[i], ems[i], more[i + 1], at, d) {
      if i < |es| {
        assert more[i] == nets[i] && more[i + 1] == nets[i + 1] && ems[i] == es[i];
        assert Happens(nets[i], es[i], nets[i + 1], at, d);
      }
    }
    assert IsPath(more, ems, at, d) && more[0] == start && more[|ems|] == Step(net, at, d, e);
  }

  /** Time can pass as long as nothing under way is overdue. */
  lemma {:induction false} Wait(start: Net, net: Net, at: int, d: int, n: nat)
    requires Leads(start, net, at, d) && forall w :: w in net.wires ==> net.now + n <= w.sent + d
    ensures Leads(start, net.(now := net.now + n), at, d)
    decreases n
  {
    if n == 0 {
      assert net.(now := net.now + n) == net;
    } else {
      var next := net.(now := net.now + 1);
      OneMore(start, net, at, d, Tick);
      Wait(start, next, at, d, n - 1);
      assert next.(now := next.now + (n - 1)) == net.(now := net.now + n);
    }
  }

  // ---------- two nodes ----------

  /** What a node of the runs below has: transactions that age, and conflicts. */
  ghost predicate Has(s: Tables, aging: map<Key, Aging>, aged: map<Key, Aged>) {
    s.aging == aging && s.aged == aged && s.next == map[]
  }

  lemma TwoRelays(tx: Tx, now: int)
    ensures Relays(2, 0, 2, tx, now) == {Wire(0, 1, tx, now)} && Relays(2, 1, 2, tx, now) == {Wire(1, 0, tx, now)}
    ensures Relays(2, 0, 1, tx, now) == {} && Relays(2, 1, 0, tx, now) == {}
  {
  }

  /** The other of two nodes. */
  function Other(n: nat): nat {
    1 - if n == 0 then 0 else 1
  }

  /** A transaction of a new key from outside starts ageing and is relayed. */
  lemma InjectNew(start: Net, net: Net, at: int, d: int, n: nat, tx: Tx) returns (net': Net)
    requires Leads(start, net, at, d) && n < 2 == |net.nodes| && IsNew(net.nodes[n], tx) && (n, tx) !in net.seen
    requires net.nodes[n].next == map[]
    ensures Leads(start, net', at, d) && |net'.nodes| == 2 && net'.now == net.now
    ensures Has(net'.nodes[n], net.nodes[n].aging[tx.key := Aging(tx, net.now)], net.nodes[n].aged)
    ensures net'.nodes[Other(n)] == net.nodes[Other(n)]
    ensures net'.wires == net.wires + {Wire(n, Other(n), tx, net.now)}
    ensures net'.promised == net.promised && net'.ended == net.ended && net'.seen == net.seen[(n, tx) := net.now]
    ensures net'.again == net.again
    ensures net'.accepted == net.accepted[(n, tx.key) := Stamp(tx, net.now)]
  {
    VerifiedRecords(net.nodes[n], tx, net.now);
    TwoRelays(tx, net.now);
    OneMore(start, net, at, d, Inject(n, tx));
    net' := Step(net, at, d, Inject(n, tx));
  }

  /** A relay of a new key arrives. */
  lemma ArriveNew(start: Net, net: Net, at: int, d: int, n: nat, tx: Tx, sent: int) returns (net': Net)
    requires Leads(start, net, at, d) && n < 2 == |net.nodes| && IsNew(net.nodes[n], tx) && (n, tx) !in net.seen
    requires net.nodes[n].next == map[] && Wire(Other(n), n, tx, sent) in net.wires
    ensures Leads(start, net', at, d) && |net'.nodes| == 2 && net'.now == net.now
    ensures Has(net'.nodes[n], net.nodes[n].aging[tx.key := Aging(tx, net.now)], net.nodes[n].aged)
    ensures net'.nodes[Other(n)] == net.nodes[Other(n)]
    ensures net'.wires == net.wires - {Wire(Other(n), n, tx, sent)}
    ensures net'.promised == net.promised && net'.ended == net.ended && net'.seen == net.seen[(n, tx) := net.now]
    ensures net'.again == net.again
  {
    VerifiedRecords(net.nodes[n], tx, net.now);
    TwoRelays(tx, net.now);
    var e := Arrive(Wire(Other(n), n, tx, sent));
    OneMore(start, net, at, d, e);
    net' := Step(net, at, d, e);
  }

  /** A relay that conflicts with the ageing transaction of its key, or comes after its promise. */
  lemma ArriveLate(start: Net, net: Net, at: int, d: int, n: nat, tx: Tx, sent: int) returns (net': Net)
    requires Leads(start, net, at, d) && n < 2 == |net.nodes| && !IsNew(net.nodes[n], tx)
    requires Wire(Other(n), n, tx, sent) in net.wires
    ensures Leads(start, net', at, d) && |net'.nodes| == 2 && net'.now == net.now
    ensures net'.nodes[n] == Verified(net.nodes[n], tx, net.now) && net'.nodes[Other(n)] == net.nodes[Other(n)]
    ensures net'.wires == net.wires - {Wire(Other(n), n, tx, sent)} && net'.promised == net.promised
    ensures net'.accepted == net.accepted
  {
    var e := Arrive(Wire(Other(n), n, tx, sent));
    OneMore(start, net, at, d, e);
    net' := Step(net, at, d, e);
  }

  /** A conflict from outside ends the ageing of its key. */
  lemma InjectConflict(start: Net, net: Net, at: int, d: int, n: nat, tx: Tx) returns (net': Net)
    requires Leads(start, net, at, d) && n < 2 == |net.nodes| && Conflicts(net.nodes[n], tx)
    ensures Leads(start, net', at, d) && |net'.nodes| == 2 && net'.now == net.now && net'.wires == net.wires
    ensures var was := net.nodes[n].aging[tx.key];
      net'.nodes[n].aged == net.nodes[n].aged[tx.key := Aged(was.tx, was.time, net.now)]
    ensures net'.nodes[Other(n)] == net.nodes[Other(n)]
    ensures net'.promised == net.promised && net'.ended == net.ended[(n, tx.key) := tx] && net'.again == net.again
    ensures net'.nodes[n].aging == net.nodes[n].aging - {tx.key} && net'.nodes[n].next == net.nodes[n].next
    ensures forall x :: x != (n, tx) ==> (x in net'.seen <==> x in net.seen) && (x in net.seen ==> net'.seen[x] == net.seen[x])
  {
    VerifiedRecords(net.nodes[n], tx, net.now);
    OneMore(start, net, at, d, Inject(n, tx));
    net' := Step(net, at, d, Inject(n, tx));
  }

  /** The monitor promises a transaction that is next in turn and depends on nothing. */
  lemma PromiseRipe(start: Net, net: Net, at: int, d: int, n: nat, tx: Tx) returns (net': Net)
    requires Leads(start, net, at, d) && n < 2 == |net.nodes| && Next(net.nodes[n], tx.key.from) == tx.key.num
    requires tx.key in net.nodes[n].aging && net.nodes[n].aging[tx.key].tx == tx
    requires tx.dep == NO_DEPENDENCY && net.now - net.nodes[n].aging[tx.key].time > at
    ensures Leads(start, net', at, d) && |net'.nodes| == 2 && net'.now == net.now && net'.wires == net.wires
    ensures net'.nodes[Other(n)] == net.nodes[Other(n)] && net'.nodes[n].aged == net.nodes[n].aged
    ensures net'.nodes[n].next == net.nodes[n].next[tx.key.from := tx.key.num + 1]
    ensures net'.nodes[n].aging == net.nodes[n].aging - {tx.key}
    ensures net'.promised == net.promised[(n, tx.key) := Stamp(tx, net.now)]
    ensures net'.ended == net.ended && net'.seen == net.seen && net'.accepted == net.accepted && net'.again == net.again
  {
    RipeRecords(net.nodes[n], at, tx, net.now);
    OneMore(start, net, at, d, Event.Age(n, tx.key));
    net' := Step(net, at, d, Event.Age(n, tx.key));
  }

  lemma RipeRecords(s: Tables, at: int, tx: Tx, now: int)
    requires tx.key in s.aging && s.aging[tx.key].tx == tx && Next(s, tx.key.from) == tx.key.num
    requires tx.dep == NO_DEPENDENCY && now - s.aging[tx.key].time > at
    ensures Ripe(s, at, tx.key, now)
    ensures var a := AgeOne(s, at, tx.key, now);
      a.aged == s.aged && a.aging == s.aging - {tx.key} && a.next == s.next[tx.key.from := tx.key.num + 1]
  {
    PromisedRecords(s, tx.key.from, tx.key.num, tx.dep, true);
    hide Promised;
  }

  /** A transaction of a promised key changes nothing but what was seen. */
  lemma InjectPromised(start: Net, net: Net, at: int, d: int, n: nat, tx: Tx) returns (net': Net)
    requires Leads(start, net, at, d) && n < 2 == |net.nodes| && IsPromised(net.nodes[n], tx.key) && tx.key !in net.nodes[n].aging
    requires (n, tx) !in net.seen
    ensures Leads(start, net', at, d) && net' == net.(seen := net.seen[(n, tx) := net.now])
  {
    VerifiedRecords(net.nodes[n], tx, net.now);
    OneMore(start, net, at, d, Inject(n, tx));
    net' := Step(net, at, d, Inject(n, tx));
    assert net.nodes[n := net.nodes[n]] == net.nodes;
  }

  // ---------- outside conflicts that the promising node sees late ----------

  function Client(): (a: Address)
    ensures |a| == ADDRESS_CHARS
  {
    seq(ADDRESS_CHARS, _ => '1')
  }

  /** First transactions of one sender that differ in the amount or in how the number is written. */
  function Sample(spelling: nat, amount: string): (tx: Tx)
    requires |amount| > 0
    ensures Acceptable(tx) && tx.key == Key(Client(), 0, spelling) && tx.amount == amount && tx.dep == NO_DEPENDENCY
  {
    Tx(Key(Client(), 0, spelling), Client(), amount, NO_DEPENDENCY, "")
  }

  /** Node n starts ageing a transaction, and the other node does so d later. */
  lemma TwoAge(at: int, d: nat, n: nat, tx: Tx) returns (net: Net)
    requires Acceptable(tx) && n < 2
    ensures Reachable(net, at, d, 2) && |net.nodes| == 2 && net.now == d && net.wires == {}
    ensures Has(net.nodes[n], map[tx.key := Aging(tx, 0)], map[]) && Has(net.nodes[Other(n)], map[tx.key := Aging(tx, d)], map[])
    ensures net.promised == map[] && net.ended == map[] && net.seen == map[(n, tx) := 0, (Other(n), tx) := d]
    ensures net.again == {}
  {
    var start := Start(2);
    Stay(start, at, d);
    net := InjectNew(start, start, at, d, n, tx);
    assert net.wires == {Wire(n, Other(n), tx, 0)};
    Wait(start, net, at, d, d);
    net := ArriveNew(start, net.(now := net.now + d), at, d, Other(n), tx, 0);
  }

  /**
   * The transaction is disturbed at node 1 after the age g, and node 0 sees the disturbing one `late` after
   * that, having promised just before.
   */
  lemma LateSight(at: nat, d: nat, g: nat, late: nat) returns (net: Net)
    requires g + late + d > at
    ensures Reachable(net, at, d, 2) && Disturbed(net, (0, Sample(0, "1").key), 1, g, late)
  {
    hide Leads;
    var start, tx, other := Start(2), Sample(0, "1"), Sample(0, "2");
    net := TwoAge(at, d, 0, tx);
    Wait(start, net, at, d, g);
    net := InjectConflict(start, net.(now := net.now + g), at, d, 1, other);
    Wait(start, net, at, d, late);
    net := PromiseRipe(start, net.(now := net.now + late), at, d, 0, tx);
    net := InjectPromised(start, net, at, d, 0, other);
  }

  /** Some reachable state has a promised transaction that was disturbed elsewhere at the age g. */
  ghost predicate CanRecord(at: int, d: int, g: int, late: int) {
    exists net, count, a, n :: Reachable(net, at, d, count) && Disturbed(net, a, n, g, late)
  }

  /**
   * Which ages can be recorded for a promised transaction, when the promising node sees the disturbing one at
   * most `late` after the disturbed node: exactly those that with `late` and d exceed the ageing threshold.
   */
  lemma RecordedAges(at: nat, d: nat, g: int, late: nat)
    ensures CanRecord(at, d, g, late) <==> g >= 0 && g + late + d > at
  {
    if CanRecord(at, d, g, late) {
      var net, count, a, n :| Reachable(net, at, d, count) && Disturbed(net, a, n, g, late);
      RecordedAge(net, at, d, count, a, n, g, late);
    }
    if g >= 0 && g + late + d > at {
      var net := LateSight(at, d, g, late);
      assert Reachable(net, at, d, 2) && Disturbed(net, (0, Sample(0, "1").key), 1, g, late);
    }
  }

  /** Wherever a promised transaction was disturbed, the full suffix is demanded for it. */
  ghost predicate AlwaysFullSuffix(at: int, d: int, late: int, discard: nat) {
    forall net, count, a, n: nat, g :: Reachable(net, at, d, count) && Disturbed(net, a, n, g, late) ==>
      RequiredSuffix(net.nodes[n].aged[a.1], at, d, discard) == discard
  }

  /**
   * What the threshold AT - 2D asks of an outside sender: the full suffix protects every promised transaction
   * exactly if the promising node sees the disturbing transaction at most D + 1 after the disturbed node.
   */
  lemma ThresholdIsExact(at: nat, d: nat, late: nat, discard: nat)
    requires 2 * d < at && discard > 0
    ensures AlwaysFullSuffix(at, d, late, discard) <==> late <= d + 1
  {
    if late <= d + 1 {
      forall net, count, a, n: nat, g | Reachable(net, at, d, count) && Disturbed(net, a, n, g, late)
        ensures RequiredSuffix(net.nodes[n].aged[a.1], at, d, discard) == discard
      {
        RecordedAge(net, at, d, count, a, n, g, late);
      }
    } else {
      TooLate(at, d, late, discard);
    }
  }

  lemma TooLate(at: nat, d: nat, late: nat, discard: nat)
    requires 2 * d < at && discard > 0 && late > d + 1
    ensures !AlwaysFullSuffix(at, d, late, discard)
  {
    hide Reachable, Disturbed;
    var g := if at - d - late + 1 >= 0 then at - d - late + 1 else 0;
    var net := LateSight(at, d, g, late);
    var a := (0, Sample(0, "1").key);
    DisturbedSuffix(net, a, 1, g, late, at, d, discard);
    assert Reachable(net, at, d, 2) && Disturbed(net, a, 1, g, late);
  }

  lemma DisturbedSuffix(net: Net, a: At, n: nat, g: int, late: int, at: int, d: int, discard: nat)
    requires Disturbed(net, a, n, g, late)
    ensures n < |net.nodes| && a.1 in net.nodes[n].aged
    ensures RequiredSuffix(net.nodes[n].aged[a.1], at, d, discard) == if g >= at - 2 * d then discard else 0
  {
  }

  // ---------- why the threshold must be at least D, and 2D for a promise to stand alone ----------

  /** Node 0 starts ageing one transaction at time 0 and node 1 another one of the same sender and number at time `later`. */
  lemma TwoStart(at: int, d: nat, tx: Tx, other: Tx, later: nat) returns (net: Net)
    requires Acceptable(tx) && Acceptable(other) && tx != other && later <= d
    ensures Reachable(net, at, d, 2) && |net.nodes| == 2 && net.now == later
    ensures net.wires == {Wire(0, 1, tx, 0), Wire(1, 0, other, later)}
    ensures Has(net.nodes[0], map[tx.key := Aging(tx, 0)], map[]) && Has(net.nodes[1], map[other.key := Aging(other, later)], map[])
    ensures net.promised == map[] && net.seen == map[(0, tx) := 0, (1, other) := later]
    ensures (1, other.key) in net.accepted && net.accepted[(1, other.key)].tx == other
  {
    var start := Start(2);
    hide Leads, IsNew;
    Stay(start, at, d);
    net := InjectNew(start, start, at, d, 0, tx);
    Wait(start, net, at, d, later);
    net := InjectNew(start, net.(now := net.now + later), at, d, 1, other);
  }

  /** Below the threshold D, two nodes promise conflicting transactions. */
  lemma ShortThreshold(at: nat, d: nat) returns (net: Net, k: Key)
    requires at < d
    ensures Reachable(net, at, d, 2) && (0, k) in net.promised && (1, k) in net.promised
    ensures net.promised[(0, k)].tx != net.promised[(1, k)].tx
  {
    var start, tx, other := Start(2), Sample(0, "1"), Sample(0, "2");
    k := tx.key;
    net := TwoStart(at, d, tx, other, 0);
    Wait(start, net, at, d, at + 1);
    net := PromiseRipe(start, net.(now := at + 1), at, d, 0, tx);
    net := PromiseRipe(start, net, at, d, 1, other);
  }

  /** Below the threshold 2D, a transaction is promised although another node starts ageing another one of its key. */
  lemma ShortDoubleThreshold(at: nat, d: nat) returns (net: Net, k: Key)
    requires at < 2 * d
    ensures Reachable(net, at, d, 2) && (0, k) in net.promised && (1, k) in net.accepted
    ensures net.promised[(0, k)].tx != net.accepted[(1, k)].tx
  {
    var start, tx, other := Start(2), Sample(0, "1"), Sample(0, "2");
    k := tx.key;
    net := TwoStart(at, d, tx, other, d);
    net := ArriveLate(start, net, at, d, 1, tx, 0);
    var n := if at + 1 >= d then at + 1 - d else 0;
    Wait(start, net, at, d, n);
    net := PromiseRipe(start, net.(now := d + n), at, d, 0, tx);
  }

  ghost predicate NeverConflicting(at: int, d: int) {
    forall net, count, a, b :: Reachable(net, at, d, count) && a in net.promised && b in net.promised && a.1 == b.1 ==>
      net.promised[a].tx == net.promised[b].tx
  }

  ghost predicate AlwaysAlone(at: int, d: int) {
    forall net, count, a, b :: Reachable(net, at, d, count) && a in net.promised && b in net.accepted && a.1 == b.1 ==>
      net.promised[a].tx == net.accepted[b].tx
  }

  /**
   * The thresholds are exact: AT >= D rules out conflicting promises of one key, AT >= 2D any conflict with a
   * promised key at all, and nothing less does.
   */
  lemma ThresholdsAreExact(at: nat, d: nat)
    ensures NeverConflicting(at, d) <==> d <= at
    ensures AlwaysAlone(at, d) <==> 2 * d <= at
  {
    if d <= at {
      forall net, count, a, b | Reachable(net, at, d, count) && a in net.promised && b in net.promised && a.1 == b.1
        ensures net.promised[a].tx == net.promised[b].tx
      {
        NoConflictingPromises(net, at, d, count, a, b);
      }
    } else {
      var net, k := ShortThreshold(at, d);
      assert (0, k) in net.promised && (1, k) in net.promised;
    }
    if 2 * d <= at {
      forall net, count, a, b | Reachable(net, at, d, count) && a in net.promised && b in net.accepted && a.1 == b.1
        ensures net.promised[a].tx == net.accepted[b].tx
      {
        PromisedIsAlone(net, at, d, count, a, b);
      }
    } else {
      var net, k := ShortDoubleThreshold(at, d);
      assert (0, k) in net.promised && (1, k) in net.accepted;
    }
  }

  // ---------- two ways to write a number ----------

  /**
   * Whatever the threshold, two nodes promise different transactions of one sender and number, if these write
   * the number differently: the tables go by the text, the turns by the number.
   */
  lemma TwoSpellings(at: nat, d: nat, spelling: nat) returns (net: Net, a: At, b: At)
    requires spelling > 0
    ensures Reachable(net, at, d, 2) && a in net.promised && b in net.promised
    ensures a.1 == Key(Client(), 0, 0) && b.1 == Key(Client(), 0, spelling)
    ensures net.promised[a].tx != net.promised[b].tx
  {
    hide Leads;
    var start, tx, other := Start(2), Sample(0, "1"), Sample(spelling, "2");
    a, b := (0, tx.key), (1, other.key);
    net := TwoStart(at, d, tx, other, 0);
    net := ArriveNew(start, net, at, d, 1, tx, 0);
    net := ArriveNew(start, net, at, d, 0, other, 0);
    Wait(start, net, at, d, at + 1);
    net := PromiseRipe(start, net.(now := at + 1), at, d, 0, tx);
    net := PromiseRipe(start, net, at, d, 1, other);
  }

  // ---------- a node starts anew with a key it has a record of ----------

  /** Two nodes have promised different transactions of one key. */
  ghost predicate Conflicting(net: Net, k: Key) {
    (0, k) in net.promised && (1, k) in net.promised && net.promised[(0, k)].tx != net.promised[(1, k)].tx
  }

  /** Node 0 creates a transaction of a key that node 1 has promised, ages it and promises it. */
  lemma CreatesAndPromises(net: Net, at: nat, d: nat, tx: Tx) returns (after: Net)
    requires |net.nodes| == 2 && net.wires == {} && net.nodes[0].next == map[]
    requires tx.key.num == 0 && tx.dep == NO_DEPENDENCY && Acceptable(tx)
    requires IsPromised(net.nodes[1], tx.key) && (1, tx.key) in net.promised && net.promised[(1, tx.key)].tx != tx
    ensures Leads(Noted(Spawned(net, 0, tx), 0, tx), after, at, d) && Conflicting(after, tx.key)
  {
    hide Leads;
    var over := Noted(Spawned(net, 0, tx), 0, tx);
    CreatedRecords(net.nodes[0], tx, net.now);
    hide Created;
    TwoRelays(tx, net.now);
    Stay(over, at, d);
    after := ArriveLate(over, over, at, d, 1, tx, net.now);
    Wait(over, after, at, d, at + 1);
    after := PromiseRipe(over, after.(now := after.now + (at + 1)), at, d, 0, tx);
  }

  /**
   * Runs create a key only where it is new or promised.  Over an ageing record, two nodes can promise different
   * transactions of one key, whatever the threshold: node 1 promises the first one, node 0, which has aged it for
   * AT at most, starts over with its own and promises that.
   */
  lemma CreatedAgain(at: nat, d: nat) returns (before: Net, tx: Tx, after: Net, k: Key)
    requires d >= 1
    ensures Reachable(before, at, d, 2) && |before.nodes| == 2 && Acceptable(tx) && tx.key == k
    ensures k in before.nodes[0].aging && before.now - before.nodes[0].aging[k].time <= at
    ensures Leads(Noted(Spawned(before, 0, tx), 0, tx), after, at, d)
    ensures Conflicting(after, k)
  {
    hide Leads;
    var start, first := Start(2), Sample(0, "1");
    tx := Sample(0, "2");
    k := tx.key;
    before := TwoAge(at, d, 1, first);
    Wait(start, before, at, d, at);
    before := PromiseRipe(start, before.(now := d + at), at, d, 1, first);
    after := CreatesAndPromises(before, at, d, tx);
  }

  /** Over a conflict record the same happens, however small the delay is. */
  lemma CreatedOverConflict(at: nat, d: nat) returns (before: Net, tx: Tx, after: Net, k: Key)
    ensures Reachable(before, at, d, 2) && |before.nodes| == 2 && Acceptable(tx) && tx.key == k
    ensures k in before.nodes[0].aged && k !in before.nodes[0].aging && !IsPromised(before.nodes[0], k)
    ensures Leads(Noted(Spawned(before, 0, tx), 0, tx), after, at, d)
    ensures Conflicting(after, k)
  {
    hide Leads;
    var start, first := Start(2), Sample(0, "1");
    tx := Sample(0, "2");
    k := tx.key;
    before := TwoAge(at, d, 1, first);
    before := InjectConflict(start, before, at, d, 0, tx);
    Wait(start, before, at, d, at + 1);
    before := PromiseRipe(start, before.(now := d + (at + 1)), at, d, 1, first);
    after := CreatesAndPromises(before, at, d, tx);
  }

  /** The second transaction of the sender. */
  function Second(amount: string): (tx: Tx)
    requires |amount| > 0
    ensures Acceptable(tx) && tx.key == Key(Client(), 1, 0) && tx.amount == amount && tx.dep == NO_DEPENDENCY
  {
    Tx(Key(Client(), 1, 0), Client(), amount, NO_DEPENDENCY, "")
  }

  /** Both nodes age a sender's first two transactions. */
  lemma SecondAges(at: nat, d: nat) returns (net: Net)
    ensures Reachable(net, at, d, 2) && |net.nodes| == 2 && net.wires == {} && net.now == d && net.promised == map[]
    ensures var z, tx := Sample(0, "1"), Second("1");
      && Has(net.nodes[0], map[z.key := Aging(z, 0), tx.key := Aging(tx, 0)], map[])
      && Has(net.nodes[1], map[z.key := Aging(z, d), tx.key := Aging(tx, d)], map[])
      && net.seen == map[(0, z) := 0, (0, tx) := 0, (1, z) := d, (1, tx) := d]
  {
    hide Leads;
    var start, z, tx := Start(2), Sample(0, "1"), Second("1");
    Stay(start, at, d);
    net := InjectNew(start, start, at, d, 0, z);
    net := InjectNew(start, net, at, d, 0, tx);
    Wait(start, net, at, d, d);
    net := ArriveNew(start, net.(now := net.now + d), at, d, 1, z, 0);
    net := ArriveNew(start, net, at, d, 1, tx, 0);
    assert net.wires == {};
  }

  /**
   * Both nodes age a sender's first two transactions, a conflict ends the ageing of the second one at node 1, and
   * node 0 promises both.
   */
  lemma SecondDisturbed(at: nat, d: nat) returns (net: Net)
    ensures Reachable(net, at, d, 2) && |net.nodes| == 2 && net.wires == {}
    ensures net.nodes[1].next == map[] && net.nodes[1].aging == map[Sample(0, "1").key := Aging(Sample(0, "1"), d)]
    ensures Second("1").key in net.nodes[1].aged && net.nodes[1].aged[Second("1").key].tx == Second("1")
    ensures Next(net.nodes[0], Client()) == 2 && Second("1").key !in net.nodes[0].aging
    ensures (0, Second("1").key) in net.promised && net.promised[(0, Second("1").key)].tx == Second("1")
    ensures net.now == d + at + 1 && (1, Second("3")) !in net.seen && Second("1").key !in net.nodes[1].aging
  {
    hide Leads;
    var start, z, tx := Start(2), Sample(0, "1"), Second("1");
    net := SecondAges(at, d);
    net := InjectConflict(start, net, at, d, 1, Second("2"));
    Wait(start, net, at, d, at + 1);
    net := PromiseRipe(start, net.(now := net.now + (at + 1)), at, d, 0, z);
    net := PromiseRipe(start, net, at, d, 0, tx);
  }

  /**
   * A commit ahead of its sender's turn that takes the conflict record with it: the node accepts another
   * transaction of the key, and promises it once its turn comes, although node 0 has promised the first one.
   */
  lemma CommittedAhead(at: nat, d: nat) returns (before: Net, tx: Tx, after: Net)
    ensures Reachable(before, at, d, 2) && |before.nodes| == 2 && Reopens(before.nodes[1], tx)
    ensures Leads(before.(nodes := before.nodes[1 := Committed(before.nodes[1], tx)]), after, at, d)
    ensures Conflicting(after, tx.key)
  {
    hide Leads;
    tx := Second("1");
    before := SecondDisturbed(at, d);
    CommittedRecords(before.nodes[1], tx);
    hide Committed;
    after := PromisesAnother(before.(nodes := before.nodes[1 := Committed(before.nodes[1], tx)]), at, d);
  }

  /** Node 1, which has no record of the second key, accepts another transaction of it and promises it in turn. */
  lemma PromisesAnother(net: Net, at: nat, d: nat) returns (after: Net)
    requires |net.nodes| == 2 && net.wires == {} && net.nodes[1].next == map[] && Second("1").key !in net.nodes[1].aged
    requires net.nodes[1].aging == map[Sample(0, "1").key := Aging(Sample(0, "1"), d)] && net.now >= d
    requires (1, Second("3")) !in net.seen && IsPromised(net.nodes[0], Second("1").key)
    requires (0, Second("1").key) in net.promised && net.promised[(0, Second("1").key)].tx == Second("1")
    ensures Leads(net, after, at, d) && Conflicting(after, Second("1").key)
  {
    hide Leads;
    var z, other := Sample(0, "1"), Second("3");
    Stay(net, at, d);
    after := InjectNew(net, net, at, d, 1, other);
    after := ArriveLate(net, after, at, d, 0, other, net.now);
    Wait(net, after, at, d, at + 1);
    after := PromiseRipe(net, after.(now := after.now + (at + 1)), at, d, 1, z);
    after := PromiseRipe(net, after, at, d, 1, other);
  }
}
