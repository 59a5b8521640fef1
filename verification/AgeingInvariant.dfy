/**
 * The invariant of the timed network, kept by every event.
 *
 * The events are grouped by what they do to a node's ageing records: a key is accepted, records fade, a conflict
 * ends the ageing of a key, or a key is promised.
 */
module AgeingInvariant {
  import opened Prelude
  import opened Ageing
  import opened Wakeups
  import opened Turns
  import opened AgeingNetwork

  // ---------- the invariant ----------

  /** The node has some record of the key. */
  predicate Known(s: Tables, k: Key) {
    !Unseen(s, k)
  }

  /** The node has dealt with `tx`: if its key is still ageing there, it is ageing with this transaction. */
  predicate Processed(s: Tables, tx: Tx) {
    Known(s, tx.key) && (tx.key in s.aging ==> s.aging[tx.key].tx == tx)
  }

  ghost predicate WiresOk(net: Net, d: int) {
    forall w :: w in net.wires ==>
      && w.src < |net.nodes| && w.dest < |net.nodes| && w.src != w.dest
      && w.sent <= net.now <= w.sent + d && Acceptable(w.tx) && Processed(net.nodes[w.src], w.tx)
  }

  ghost predicate TablesOk(net: Net, n: nat)
    requires n < |net.nodes|
  {
    var s := net.nodes[n];
    && (forall k :: k in s.aging ==>
          s.aging[k].tx.key == k && k !in s.aged && (n, k) in net.accepted && net.accepted[(n, k)] == Stamp(s.aging[k].tx, s.aging[k].time))
    && (forall k :: k in s.aged ==>
          (n, k) in net.accepted && net.accepted[(n, k)] == Stamp(s.aged[k].tx, s.aged[k].start))
  }

  ghost predicate AcceptedOk(net: Net) {
    forall a :: a in net.accepted ==>
      a.0 < |net.nodes| && Known(net.nodes[a.0], a.1) && net.accepted[a].tx.key == a.1 && net.accepted[a].time <= net.now
  }

  /** What node a.0 accepted is on its way to node m or has been dealt with there. */
  ghost predicate Reaches(net: Net, a: At, m: nat)
    requires a in net.accepted && m < |net.nodes|
  {
    var x := net.accepted[a];
    Wire(a.0, m, x.tx, x.time) in net.wires || Processed(net.nodes[m], x.tx)
  }

  ghost predicate Spread(net: Net) {
    forall a, m :: a in net.accepted && 0 <= m < |net.nodes| && m != a.0 ==> Reaches(net, a, m)
  }

  /** A promised key was accepted more than `at` before, with this transaction, and has no other record. */
  ghost predicate PromisedAfter(net: Net, at: int, a: At)
    requires a in net.promised
  {
    && a in net.accepted && a.0 < |net.nodes| && net.accepted[a].tx == net.promised[a].tx
    && net.accepted[a].time + at < net.promised[a].time <= net.now
    && IsPromised(net.nodes[a.0], a.1) && a.1 !in net.nodes[a.0].aging && a.1 !in net.nodes[a.0].aged
  }

  ghost predicate PromisedOk(net: Net, at: int) {
    forall a :: a in net.promised ==> PromisedAfter(net, at, a)
  }

  /** A promise comes no later than `d` after any conflicting accept. */
  ghost predicate Early(net: Net, d: int, a: At, b: At)
    requires a in net.promised && b in net.accepted
  {
    b.1 == a.1 && net.accepted[b].tx != net.promised[a].tx ==> net.promised[a].time <= net.accepted[b].time + d
  }

  ghost predicate Undisturbed(net: Net, d: int) {
    forall a, b :: a in net.promised && b in net.accepted ==> Early(net, d, a, b)
  }

  /** All nodes that accept a key do so within `d` of each other. */
  ghost predicate Near(net: Net, d: int, a: At, b: At)
    requires a in net.accepted && b in net.accepted
  {
    a.1 == b.1 ==> net.accepted[b].time <= net.accepted[a].time + d
  }

  ghost predicate Close(net: Net, d: int) {
    forall a, b :: a in net.accepted && b in net.accepted ==> Near(net, d, a, b)
  }

  /** Another transaction of the same key ended the ageing. */
  ghost predicate EndedBy(net: Net, n: nat, k: Key)
    requires n < |net.nodes| && k in net.nodes[n].aged
  {
    && net.nodes[n].aged[k].start <= net.nodes[n].aged[k].end
    && (n, k) in net.ended && Acceptable(net.ended[(n, k)]) && net.ended[(n, k)].key == k && net.ended[(n, k)] != net.nodes[n].aged[k].tx
  }

  ghost predicate EndedOk(net: Net) {
    forall n, k :: 0 <= n < |net.nodes| && k in net.nodes[n].aged ==> EndedBy(net, n, k)
  }

  /** Whatever was seen has been dealt with. */
  ghost predicate SightOk(net: Net, x: Sight) {
    x.0 < |net.nodes| && (Acceptable(x.1) ==> Processed(net.nodes[x.0], x.1))
  }

  /** A node that promised a transaction had not seen another one of its key before. */
  ghost predicate Unaware(net: Net, a: At, x: Sight)
    requires a in net.promised && x in net.seen
  {
    x.0 == a.0 && x.1.key == a.1 && Acceptable(x.1) && x.1 != net.promised[a].tx ==> net.promised[a].time <= net.seen[x]
  }

  ghost predicate SeenOk(net: Net) {
    && (forall x :: x in net.seen ==> SightOk(net, x))
    && forall a, x :: a in net.promised && x in net.seen ==> Unaware(net, a, x)
  }

  ghost predicate NetOk(net: Net, at: int, d: int) {
    && d >= 0 && WiresOk(net, d) && (forall n :: 0 <= n < |net.nodes| ==> TablesOk(net, n)) && AcceptedOk(net)
    && Spread(net) && PromisedOk(net, at) && Undisturbed(net, d) && Close(net, d) && EndedOk(net) && SeenOk(net)
  }

  // ---------- what the operations do to a node's records ----------

  lemma VerifiedRecords(s: Tables, tx: Tx, now: int)
    ensures var v := Verified(s, tx, now);
      && v.next == s.next
      && v.aging == (if IsNew(s, tx) then s.aging[tx.key := Aging(tx, now)] else if Conflicts(s, tx) then s.aging - {tx.key} else s.aging)
      && v.aged == (if Conflicts(s, tx) then s.aged[tx.key := Aged(s.aging[tx.key].tx, s.aging[tx.key].time, now)] else s.aged)
  {
    QueueKeepsRecords(s, tx);
  }

  lemma PromisedRecords(s: Tables, from: Address, num: nat, dep: Key, byAgeing: bool)
    ensures var p := Promised(s, from, num, dep, byAgeing);
      p.aging == s.aging && p.aged == s.aged && p.next == Advanced(s, from, num).next
  {
    NotifyingSettles(Advanced(s, from, num), from, num);
  }

  lemma AgeOneRecords(s: Tables, at: int, k: Key, now: int)
    requires k in s.aging && s.aging[k].tx.key == k
    ensures var a := AgeOne(s, at, k, now);
      && Onward(s, a) && a.aged == s.aged
      && (if Ripe(s, at, k, now) then a.aging == s.aging - {k} && IsPromised(a, k) else a.aging == s.aging && a.next == s.next)
  {
    var tx := s.aging[k].tx;
    var c := Checked(s, tx.key.from, tx.key.num, tx.dep);
    CheckedSettles(s, tx.key.from, tx.key.num, tx.dep);
    PromisedRecords(c, tx.key.from, tx.key.num, tx.dep, true);
  }

  lemma CommittedRecords(s: Tables, tx: Tx)
    ensures var c := Committed(s, tx);
      && Onward(s, c) && c.aging == s.aging && (tx.key.num <= Next(s, tx.key.from) ==> IsPromised(c, tx.key))
      && (tx.key.num > Next(s, tx.key.from) ==> c.next == s.next)
      && c.aged == if !IsPromised(s, tx.key) && tx.key in s.aged && s.aged[tx.key].tx == tx then s.aged - {tx.key} else s.aged
  {
    hide Promised;
    if !IsPromised(s, tx.key) {
      var a := if tx.key in s.aged && s.aged[tx.key].tx == tx then s.(aged := s.aged - {tx.key}) else s;
      PromisedRecords(a, tx.key.from, tx.key.num, tx.dep, false);
    }
  }

  // ---------- a node accepts a transaction ----------

  ghost predicate Accepts(net: Net, n: nat, tx: Tx, from: nat, net': Net) {
    && n < |net.nodes| == |net'.nodes| && Acceptable(tx) && Unseen(net.nodes[n], tx.key)
    && (from < |net.nodes| ==> from != n && Processed(net.nodes[from], tx))
    && (forall m :: 0 <= m < |net.nodes| && m != n ==> net'.nodes[m] == net.nodes[m])
    && net'.nodes[n].next == net.nodes[n].next && net'.nodes[n].aged == net.nodes[n].aged
    && net'.nodes[n].aging == net.nodes[n].aging[tx.key := Aging(tx, net.now)]
    && net'.now == net.now && net'.wires == net.wires + Relays(|net.nodes|, n, from, tx, net.now)
    && net'.accepted == net.accepted[(n, tx.key) := Stamp(tx, net.now)]
    && net'.promised == net.promised && net'.ended == net.ended && net'.seen == net.seen
  }

  lemma AcceptTables(net: Net, n: nat, tx: Tx, from: nat, net': Net, m: nat)
    requires m < |net.nodes| && TablesOk(net, m) && AcceptedOk(net) && Accepts(net, n, tx, from, net')
    ensures TablesOk(net', m)
  {
    assert (n, tx.key) !in net.accepted;
  }

  lemma AcceptSpread(net: Net, n: nat, tx: Tx, from: nat, net': Net)
    requires Spread(net) && AcceptedOk(net) && Accepts(net, n, tx, from, net')
    ensures Spread(net')
  {
    forall a, m | a in net'.accepted && 0 <= m < |net'.nodes| && m != a.0 ensures Reaches(net', a, m) {
      if a == (n, tx.key) {
        if m != from { assert Wire(n, m, tx, net.now) in Relays(|net.nodes|, n, from, tx, net.now); }
      } else {
        assert net.accepted[a].tx.key == a.1 && Reaches(net, a, m);
      }
    }
  }

  lemma AcceptPromised(net: Net, at: int, n: nat, tx: Tx, from: nat, net': Net)
    requires PromisedOk(net, at) && Accepts(net, n, tx, from, net')
    ensures PromisedOk(net', at)
  {
    hide PromisedAfter, Accepts;
    AcceptKeepsPromised(net, n, tx, from, net');
    forall a | a in net'.promised ensures PromisedAfter(net', at, a) {
      AcceptPromisedAt(net, at, n, tx, from, net', a);
    }
  }

  lemma AcceptKeepsPromised(net: Net, n: nat, tx: Tx, from: nat, net': Net)
    requires Accepts(net, n, tx, from, net')
    ensures net'.promised == net.promised
  {
  }

  lemma AcceptPromisedAt(net: Net, at: int, n: nat, tx: Tx, from: nat, net': Net, a: At)
    requires a in net.promised && PromisedAfter(net, at, a) && Accepts(net, n, tx, from, net')
    ensures a in net'.promised && PromisedAfter(net', at, a)
  {
    assert a != (n, tx.key);
  }

  lemma AcceptUndisturbed(net: Net, at: int, d: int, n: nat, tx: Tx, from: nat, net': Net)
    requires d >= 0 && PromisedOk(net, at) && Undisturbed(net, d) && Accepts(net, n, tx, from, net')
    ensures Undisturbed(net', d)
  {
    forall a, b | a in net'.promised && b in net'.accepted ensures Early(net', d, a, b) {
      if b != (n, tx.key) { assert Early(net, d, a, b); }
    }
  }

  lemma AcceptEnded(net: Net, n: nat, tx: Tx, from: nat, net': Net)
    requires EndedOk(net) && Accepts(net, n, tx, from, net')
    ensures EndedOk(net')
  {
    forall m, k | 0 <= m < |net'.nodes| && k in net'.nodes[m].aged ensures EndedBy(net', m, k) {
      assert k in net.nodes[m].aged && EndedBy(net, m, k);
    }
  }

  lemma AcceptSeen(net: Net, n: nat, tx: Tx, from: nat, net': Net)
    requires SeenOk(net) && Accepts(net, n, tx, from, net')
    ensures SeenOk(net')
  {
    forall x | x in net'.seen ensures SightOk(net', x) {
      assert SightOk(net, x);
    }
    forall a, x | a in net'.promised && x in net'.seen ensures Unaware(net', a, x) {
      assert Unaware(net, a, x);
    }
  }

  /** Whoever accepted the key before did so at most `d` ago: its relay is still on the way here. */
  lemma AcceptClose(net: Net, d: int, n: nat, tx: Tx, from: nat, net': Net)
    requires d >= 0 && WiresOk(net, d) && AcceptedOk(net) && Spread(net) && Close(net, d)
    requires Accepts(net, n, tx, from, net')
    ensures Close(net', d)
  {
    forall a, b | a in net'.accepted && b in net'.accepted ensures Near(net', d, a, b) {
      if a == (n, tx.key) {
        assert b != a ==> net.accepted[b].time <= net.now;
      } else if b == (n, tx.key) {
        if a.1 == b.1 {
          assert net.accepted[a].tx.key == a.1 && Reaches(net, a, n);
        }
      } else {
        assert Near(net, d, a, b);
      }
    }
  }

  lemma AcceptOk(net: Net, at: int, d: int, n: nat, tx: Tx, from: nat, net': Net)
    requires NetOk(net, at, d) && Accepts(net, n, tx, from, net')
    ensures NetOk(net', at, d)
  {
    forall m | 0 <= m < |net'.nodes| ensures TablesOk(net', m) { AcceptTables(net, n, tx, from, net', m); }
    AcceptSpread(net, n, tx, from, net');
    AcceptPromised(net, at, n, tx, from, net');
    AcceptUndisturbed(net, at, d, n, tx, from, net');
    AcceptEnded(net, n, tx, from, net');
    AcceptSeen(net, n, tx, from, net');
    AcceptClose(net, d, n, tx, from, net');
  }

  // ---------- records fade ----------

  /** Node n changes without accepting: ageing entries can only go, and nothing known is forgotten. */
  ghost predicate Fades(net: Net, n: nat, net': Net) {
    && n < |net.nodes| == |net'.nodes| && net'.now == net.now && net'.wires == net.wires && net'.accepted == net.accepted
    && net'.seen == net.seen
    && (forall m :: 0 <= m < |net.nodes| && m != n ==> net'.nodes[m] == net.nodes[m])
    && Onward(net.nodes[n], net'.nodes[n])
    && (forall k :: Known(net.nodes[n], k) ==> Known(net'.nodes[n], k))
    && (forall k :: k in net'.nodes[n].aging ==> k in net.nodes[n].aging && net'.nodes[n].aging[k] == net.nodes[n].aging[k])
  }

  lemma FadeSpread(net: Net, d: int, n: nat, net': Net)
    requires WiresOk(net, d) && AcceptedOk(net) && Spread(net) && Close(net, d) && Fades(net, n, net')
    ensures WiresOk(net', d) && AcceptedOk(net') && Spread(net') && Close(net', d)
  {
    forall a, m | a in net'.accepted && 0 <= m < |net'.nodes| && m != a.0 ensures Reaches(net', a, m) {
      assert Reaches(net, a, m);
    }
    forall a, b | a in net'.accepted && b in net'.accepted ensures Near(net', d, a, b) {
      assert Near(net, d, a, b);
    }
  }

  /** Promises stay good when node n's records only fade and it promises nothing new. */
  lemma FadePromises(net: Net, at: int, d: int, n: nat, net': Net)
    requires PromisedOk(net, at) && Undisturbed(net, d) && Fades(net, n, net') && net'.promised == net.promised
    requires forall k :: k in net'.nodes[n].aged && k !in net.nodes[n].aged ==> (n, k) !in net.promised
    ensures PromisedOk(net', at) && Undisturbed(net', d)
  {
    forall a, b | a in net'.promised && b in net'.accepted ensures Early(net', d, a, b) {
      assert Early(net, d, a, b);
    }
  }

  lemma FadeTables(net: Net, n: nat, net': Net, m: nat)
    requires m < |net.nodes| && TablesOk(net, m) && Fades(net, n, net')
    requires forall k :: k in net'.nodes[n].aged ==> k in net.nodes[n].aged && net'.nodes[n].aged[k] == net.nodes[n].aged[k]
    ensures TablesOk(net', m)
  {
  }

  /** Ageing entries and conflict records can only go. */
  ghost predicate OnlyFades(net: Net, n: nat, net': Net) {
    && Fades(net, n, net') && net'.ended == net.ended
    && forall k :: k in net'.nodes[n].aged ==> k in net.nodes[n].aged && net'.nodes[n].aged[k] == net.nodes[n].aged[k]
  }

  lemma FadeSeen(net: Net, n: nat, net': Net)
    requires SeenOk(net) && Fades(net, n, net') && net'.promised == net.promised
    ensures SeenOk(net')
  {
    forall x | x in net'.seen ensures SightOk(net', x) {
      assert SightOk(net, x);
    }
    forall a, x | a in net'.promised && x in net'.seen ensures Unaware(net', a, x) {
      assert Unaware(net, a, x);
    }
  }

  lemma FadeOk(net: Net, at: int, d: int, n: nat, net': Net)
    requires NetOk(net, at, d) && OnlyFades(net, n, net') && net'.promised == net.promised
    ensures NetOk(net', at, d)
  {
    FadeSpread(net, d, n, net');
    FadePromises(net, at, d, n, net');
    FadeSeen(net, n, net');
    forall m | 0 <= m < |net'.nodes| ensures TablesOk(net', m) { FadeTables(net, n, net', m); }
  }

  /** A conflicting transaction ends the ageing of its key. */
  ghost predicate Clashes(net: Net, n: nat, tx: Tx, net': Net) {
    && n < |net.nodes| && Conflicts(net.nodes[n], tx) && Fades(net, n, net') && net'.promised == net.promised
    && net'.nodes[n].aging == net.nodes[n].aging - {tx.key}
    && net'.nodes[n].aged == net.nodes[n].aged[tx.key := Aged(net.nodes[n].aging[tx.key].tx, net.nodes[n].aging[tx.key].time, net.now)]
    && net'.ended == net.ended[(n, tx.key) := tx]
  }

  lemma ClashTables(net: Net, n: nat, tx: Tx, net': Net, m: nat)
    requires m < |net.nodes| && TablesOk(net, m) && Clashes(net, n, tx, net')
    ensures TablesOk(net', m)
  {
  }

  lemma ClashEnded(net: Net, n: nat, tx: Tx, net': Net)
    requires EndedOk(net) && AcceptedOk(net) && n < |net.nodes| && TablesOk(net, n) && Clashes(net, n, tx, net')
    ensures EndedOk(net')
  {
    forall m, k | 0 <= m < |net'.nodes| && k in net'.nodes[m].aged ensures EndedBy(net', m, k) {
      if (m, k) != (n, tx.key) {
        assert k in net.nodes[m].aged && EndedBy(net, m, k);
      }
    }
  }

  lemma ClashOk(net: Net, at: int, d: int, n: nat, tx: Tx, net': Net)
    requires NetOk(net, at, d) && Clashes(net, n, tx, net')
    ensures NetOk(net', at, d)
  {
    FadeSpread(net, d, n, net');
    FadePromises(net, at, d, n, net');
    ClashEnded(net, n, tx, net');
    FadeSeen(net, n, net');
    forall m | 0 <= m < |net'.nodes| ensures TablesOk(net', m) { ClashTables(net, n, tx, net', m); }
  }

  /** What a relaying node has to have done with the transaction. */
  ghost predicate Sender(net: Net, n: nat, tx: Tx, from: nat) {
    from < |net.nodes| ==> from != n && Processed(net.nodes[from], tx)
  }

  lemma DropSpread(net: Net, w: Wire)
    requires Spread(net) && w.dest < |net.nodes| && Processed(net.nodes[w.dest], w.tx)
    ensures Spread(net.(wires := net.wires - {w}))
  {
    var net' := net.(wires := net.wires - {w});
    forall a, m | a in net'.accepted && 0 <= m < |net'.nodes| && m != a.0 ensures Reaches(net', a, m) {
      assert Reaches(net, a, m);
    }
  }

  /** Changes that leave nodes, accepts and promises alone. */
  ghost predicate SameHistory(net: Net, net': Net) {
    && net'.nodes == net.nodes && net'.accepted == net.accepted && net'.promised == net.promised && net'.ended == net.ended
    && net'.now >= net.now
  }

  lemma SameSpread(net: Net, net': Net)
    requires Spread(net) && net'.nodes == net.nodes && net'.accepted == net.accepted && net'.wires == net.wires
    ensures Spread(net')
  {
    forall a, m | a in net'.accepted && 0 <= m < |net'.nodes| && m != a.0 ensures Reaches(net', a, m) {
      assert Reaches(net, a, m);
    }
  }

  lemma SameAccepts(net: Net, d: int, net': Net)
    requires Close(net, d) && AcceptedOk(net) && SameHistory(net, net')
    ensures Close(net', d) && AcceptedOk(net')
  {
    forall a, b | a in net'.accepted && b in net'.accepted ensures Near(net', d, a, b) { assert Near(net, d, a, b); }
  }

  lemma SamePromises(net: Net, at: int, d: int, net': Net)
    requires PromisedOk(net, at) && Undisturbed(net, d) && SameHistory(net, net')
    ensures PromisedOk(net', at) && Undisturbed(net', d)
  {
    forall a, b | a in net'.promised && b in net'.accepted ensures Early(net', d, a, b) { assert Early(net, d, a, b); }
  }

  lemma SameTables(net: Net, net': Net)
    requires EndedOk(net) && SameHistory(net, net') && forall m :: 0 <= m < |net.nodes| ==> TablesOk(net, m)
    ensures EndedOk(net') && forall m :: 0 <= m < |net'.nodes| ==> TablesOk(net', m)
  {
    forall m | 0 <= m < |net.nodes| ensures TablesOk(net', m) { assert TablesOk(net, m); }
    forall m, k | 0 <= m < |net'.nodes| && k in net'.nodes[m].aged ensures EndedBy(net', m, k) {
      assert EndedBy(net, m, k);
    }
  }

  lemma SameSights(net: Net, net': Net)
    requires SeenOk(net) && SameHistory(net, net') && net'.seen == net.seen
    ensures SeenOk(net')
  {
    forall x | x in net'.seen ensures SightOk(net', x) { assert SightOk(net, x); }
    forall a, x | a in net'.promised && x in net'.seen ensures Unaware(net', a, x) { assert Unaware(net, a, x); }
  }

  /** A delivered message can be dropped. */
  lemma DropOk(net: Net, at: int, d: int, w: Wire)
    requires NetOk(net, at, d) && w.dest < |net.nodes| && Processed(net.nodes[w.dest], w.tx)
    ensures NetOk(net.(wires := net.wires - {w}), at, d)
  {
    var net' := net.(wires := net.wires - {w});
    DropSpread(net, w);
    SameAccepts(net, d, net');
    SamePromises(net, at, d, net');
    SameTables(net, net');
    SameSights(net, net');
  }

  /** A node notes what it has just dealt with. */
  lemma NotedOk(net: Net, at: int, d: int, n: nat, tx: Tx)
    requires NetOk(net, at, d) && n < |net.nodes| && (Acceptable(tx) ==> Processed(net.nodes[n], tx))
    ensures NetOk(Noted(net, n, tx), at, d)
  {
    var net' := Noted(net, n, tx);
    NotedSeen(net, at, n, tx);
    SameSpread(net, net');
    SameAccepts(net, d, net');
    SamePromises(net, at, d, net');
    SameTables(net, net');
  }

  lemma NotedSeen(net: Net, at: int, n: nat, tx: Tx)
    requires SeenOk(net) && PromisedOk(net, at) && n < |net.nodes| && (Acceptable(tx) ==> Processed(net.nodes[n], tx))
    ensures SeenOk(Noted(net, n, tx))
  {
    var net' := Noted(net, n, tx);
    forall x | x in net'.seen ensures SightOk(net', x) {
      if x != (n, tx) { assert SightOk(net, x); }
    }
    forall a, x | a in net'.promised && x in net'.seen ensures Unaware(net', a, x) {
      if x in net.seen { assert Unaware(net, a, x); }
    }
  }

  /** When a key is promised by ageing, every conflicting accept is at most `d` old: its relay has not arrived yet. */
  lemma RipeIsUndisturbed(net: Net, d: int, n: nat, k: Key, b: At)
    requires WiresOk(net, d) && AcceptedOk(net) && Spread(net) && n < |net.nodes| && TablesOk(net, n)
    requires k in net.nodes[n].aging
    requires b in net.accepted && b.1 == k && net.accepted[b].tx != net.nodes[n].aging[k].tx
    ensures net.now <= net.accepted[b].time + d
  {
    assert b.0 != n && net.accepted[b].tx.key == k && Reaches(net, b, n);
  }

  /** Node n promises key k by ageing. */
  ghost predicate Promises(net: Net, at: int, n: nat, k: Key, net': Net) {
    && OnlyFades(net, n, net') && k in net.nodes[n].aging && Ripe(net.nodes[n], at, k, net.now)
    && k !in net'.nodes[n].aging && IsPromised(net'.nodes[n], k)
    && net'.promised == net.promised[(n, k) := Stamp(net.nodes[n].aging[k].tx, net.now)]
  }

  lemma PromiseKept(net: Net, at: int, d: int, n: nat, k: Key, net': Net)
    requires PromisedOk(net, at) && n < |net.nodes| && TablesOk(net, n) && Promises(net, at, n, k, net')
    ensures PromisedOk(net', at)
  {
  }

  lemma PromiseUndisturbed(net: Net, at: int, d: int, n: nat, k: Key, net': Net)
    requires WiresOk(net, d) && AcceptedOk(net) && Spread(net) && Undisturbed(net, d)
    requires n < |net.nodes| && TablesOk(net, n) && Promises(net, at, n, k, net')
    ensures Undisturbed(net', d)
  {
    forall a, b | a in net'.promised && b in net'.accepted ensures Early(net', d, a, b) {
      if a == (n, k) {
        if b.1 == k && net.accepted[b].tx != net.nodes[n].aging[k].tx {
          RipeIsUndisturbed(net, d, n, k, b);
        }
      } else {
        assert Early(net, d, a, b);
      }
    }
  }

  /** The promised transaction was the only one of its key that the node had seen. */
  lemma PromiseSeen(net: Net, at: int, n: nat, k: Key, net': Net)
    requires SeenOk(net) && n < |net.nodes| && TablesOk(net, n) && Promises(net, at, n, k, net')
    ensures SeenOk(net')
  {
    forall x | x in net'.seen ensures SightOk(net', x) {
      assert SightOk(net, x);
    }
    forall a, x | a in net'.promised && x in net'.seen ensures Unaware(net', a, x) {
      if a == (n, k) {
        assert SightOk(net, x);
      } else {
        assert Unaware(net, a, x);
      }
    }
  }

  lemma PromiseOk(net: Net, at: int, d: int, n: nat, k: Key, net': Net)
    requires NetOk(net, at, d) && n < |net.nodes| && Promises(net, at, n, k, net')
    ensures NetOk(net', at, d)
  {
    assert TablesOk(net, n);
    FadeSpread(net, d, n, net');
    PromiseKept(net, at, d, n, k, net');
    PromiseUndisturbed(net, at, d, n, k, net');
    PromiseSeen(net, at, n, k, net');
    forall m | 0 <= m < |net'.nodes| ensures TablesOk(net', m) { FadeTables(net, n, net', m); }
  }

  lemma TickOk(net: Net, at: int, d: int)
    requires NetOk(net, at, d) && forall w :: w in net.wires ==> net.now + 1 <= w.sent + d
    ensures NetOk(net.(now := net.now + 1), at, d)
  {
    var net' := net.(now := net.now + 1);
    SameSpread(net, net');
    SameAccepts(net, d, net');
    SamePromises(net, at, d, net');
    SameTables(net, net');
    SameSights(net, net');
  }

  // ---------- keys that were created again ----------

  ghost function Kept<T>(m: map<Key, T>, n: nat, again: set<At>): map<Key, T> {
    map k | k in m && (n, k) !in again :: m[k]
  }

  lemma KeptChanges<T>(m: map<Key, T>, n: nat, again: set<At>, k: Key, v: T)
    ensures Kept(m[k := v], n, again) == if (n, k) in again then Kept(m, n, again) else Kept(m, n, again)[k := v]
    ensures Kept(m - {k}, n, again) == if (n, k) in again then Kept(m, n, again) else Kept(m, n, again) - {k}
  {
  }

  /** The records of node n without those of keys that it created although they were promised. */
  ghost function Live(s: Tables, n: nat, again: set<At>): Tables {
    s.(aging := Kept(s.aging, n, again), aged := Kept(s.aged, n, again))
  }

  /** The network without those records: they never matter again. */
  ghost function Alive(net: Net): Net {
    net.(nodes := seq(|net.nodes|, n requires 0 <= n < |net.nodes| => Live(net.nodes[n], n, net.again)),
         ended := map a | a in net.ended && a !in net.again :: net.ended[a])
  }

  /** Keys created again are promised, and ageing records are filed under their key. */
  ghost predicate NodeFiled(net: Net, n: nat)
    requires n < |net.nodes|
  {
    && (forall k :: (n, k) in net.again ==> IsPromised(net.nodes[n], k))
    && (forall k :: k in net.nodes[n].aging ==> net.nodes[n].aging[k].tx.key == k)
  }

  ghost predicate AllFiled(net: Net) {
    forall n :: 0 <= n < |net.nodes| ==> NodeFiled(net, n)
  }

  ghost predicate AllOk(net: Net, at: int, d: int) {
    NetOk(Alive(net), at, d) && AllFiled(net)
  }

  /** Nothing else looks different. */
  lemma LiveLooks(s: Tables, n: nat, again: set<At>)
    requires forall k :: (n, k) in again ==> IsPromised(s, k)
    ensures var l := Live(s, n, again);
      && (forall k :: Unseen(l, k) <==> Unseen(s, k)) && (forall k :: IsPromised(l, k) <==> IsPromised(s, k))
      && (forall tx :: Conflicts(l, tx) <==> Conflicts(s, tx) && (n, tx.key) !in again)
      && (forall tx :: Processed(s, tx) ==> Processed(l, tx))
  {
  }

  lemma LiveVerified(s: Tables, n: nat, again: set<At>, tx: Tx, now: int)
    requires forall k :: (n, k) in again ==> IsPromised(s, k)
    ensures var l, v := Live(s, n, again), Live(Verified(s, tx, now), n, again);
      && v.next == l.next
      && v.aging == (if IsNew(l, tx) then l.aging[tx.key := Aging(tx, now)] else if Conflicts(l, tx) then l.aging - {tx.key} else l.aging)
      && v.aged == (if Conflicts(l, tx) then l.aged[tx.key := Aged(l.aging[tx.key].tx, l.aging[tx.key].time, now)] else l.aged)
  {
    VerifiedRecords(s, tx, now);
    LiveLooks(s, n, again);
    LiveClash(s, n, again, tx);
    KeptChanges(s.aging, n, again, tx.key, Aging(tx, now));
    if Conflicts(s, tx) {
      KeptChanges(s.aged, n, again, tx.key, Aged(s.aging[tx.key].tx, s.aging[tx.key].time, now));
    }
    hide Kept, Verified, Unseen, Acceptable;
  }

  lemma LiveClash(s: Tables, n: nat, again: set<At>, tx: Tx)
    ensures Conflicts(Live(s, n, again), tx) ==> Live(s, n, again).aging[tx.key] == s.aging[tx.key]
  {
  }

  /** A network that differs at node n, and in fields that are kept as they are. */
  ghost predicate OneNode(net: Net, n: nat, net': Net) {
    n < |net.nodes| == |net'.nodes| && forall m :: 0 <= m < |net.nodes| && m != n ==> net'.nodes[m] == net.nodes[m]
  }

  lemma AliveNodes(net: Net, n: nat, net': Net)
    requires OneNode(net, n, net') && (net'.again == net.again || exists k :: net'.again == net.again + {(n, k)})
    ensures OneNode(Alive(net), n, Alive(net')) && Alive(net').nodes[n] == Live(net'.nodes[n], n, net'.again)
    ensures Alive(net).nodes[n] == Live(net.nodes[n], n, net.again)
  {
    forall m | 0 <= m < |net.nodes| && m != n ensures Live(net'.nodes[m], m, net'.again) == Live(net.nodes[m], m, net.again) {
      var l, l' := Live(net.nodes[m], m, net.again), Live(net'.nodes[m], m, net'.again);
      assert l'.aging == l.aging && l'.aged == l.aged;
    }
  }

  /** Fields that `Alive` does not look at. */
  lemma AliveSame(net: Net, net': Net)
    requires net'.nodes == net.nodes && net'.again == net.again && net'.ended == net.ended
    ensures Alive(net').nodes == Alive(net).nodes && Alive(net').ended == Alive(net).ended
  {
    assert Alive(net').ended == Alive(net).ended;
  }

  // ---------- events ----------

  lemma ReceivedCases(net: Net, n: nat, tx: Tx, from: nat)
    requires n < |net.nodes| && NodeFiled(net, n) && Sender(Alive(net), n, tx, from)
    ensures var a, a' := Alive(net), Alive(Received(net, n, tx, from));
      if IsNew(a.nodes[n], tx) then Accepts(a, n, tx, from, a')
      else if Conflicts(a.nodes[n], tx) then Clashes(a, n, tx, a')
      else OnlyFades(a, n, a') && a'.promised == a.promised
    ensures n < |Alive(Received(net, n, tx, from)).nodes|
    ensures Acceptable(tx) ==> Processed(Alive(Received(net, n, tx, from)).nodes[n], tx)
  {
    var net' := Received(net, n, tx, from);
    AliveNodes(net, n, net');
    LiveLooks(net.nodes[n], n, net.again);
    LiveVerified(net.nodes[n], n, net.again, tx, net.now);
    ReceivedEnded(net, n, tx, from);
  }

  lemma ReceivedEnded(net: Net, n: nat, tx: Tx, from: nat)
    requires n < |net.nodes|
    ensures Alive(Received(net, n, tx, from)).ended ==
            if Conflicts(net.nodes[n], tx) && (n, tx.key) !in net.again then Alive(net).ended[(n, tx.key) := tx] else Alive(net).ended
  {
  }

  lemma ReceivedFiled(net: Net, n: nat, tx: Tx, from: nat)
    requires n < |net.nodes| && AllFiled(net)
    ensures AllFiled(Received(net, n, tx, from))
  {
    var net' := Received(net, n, tx, from);
    VerifiedRecords(net.nodes[n], tx, net.now);
    forall m | 0 <= m < |net'.nodes| ensures NodeFiled(net', m) { assert NodeFiled(net, m); }
  }

  lemma ReceivedOk(net: Net, at: int, d: int, n: nat, tx: Tx, from: nat)
    requires AllOk(net, at, d) && n < |net.nodes| && Sender(Alive(net), n, tx, from)
    ensures AllOk(Received(net, n, tx, from), at, d)
  {
    hide NetOk, Accepts, Clashes, OnlyFades;
    var a, a' := Alive(net), Alive(Received(net, n, tx, from));
    assert NodeFiled(net, n);
    ReceivedCases(net, n, tx, from);
    ReceivedFiled(net, n, tx, from);
    if IsNew(a.nodes[n], tx) {
      AcceptOk(a, at, d, n, tx, from, a');
    } else if Conflicts(a.nodes[n], tx) {
      ClashOk(a, at, d, n, tx, a');
    } else {
      FadeOk(a, at, d, n, a');
    }
  }

  /** The node notes what it has just dealt with. */
  lemma NotedAllOk(net: Net, at: int, d: int, n: nat, tx: Tx)
    requires AllOk(net, at, d) && n < |net.nodes| && (Acceptable(tx) ==> Processed(Alive(net).nodes[n], tx))
    ensures AllOk(Noted(net, n, tx), at, d)
  {
    var net' := Noted(net, n, tx);
    AliveSame(net, net');
    hide NetOk;
    NotedOk(Alive(net), at, d, n, tx);
    assert Alive(net') == Noted(Alive(net), n, tx);
    forall m | 0 <= m < |net'.nodes| ensures NodeFiled(net', m) { assert NodeFiled(net, m); }
  }

  lemma DropAllOk(net: Net, at: int, d: int, w: Wire)
    requires AllOk(net, at, d) && w.dest < |net.nodes| && Processed(Alive(net).nodes[w.dest], w.tx)
    ensures AllOk(net.(wires := net.wires - {w}), at, d)
  {
    var net' := net.(wires := net.wires - {w});
    AliveSame(net, net');
    hide NetOk;
    DropOk(Alive(net), at, d, w);
    assert Alive(net') == Alive(net).(wires := net.wires - {w});
    forall m | 0 <= m < |net'.nodes| ensures NodeFiled(net', m) { assert NodeFiled(net, m); }
  }

  lemma WireOk(net: Net, at: int, d: int, w: Wire)
    requires NetOk(net, at, d) && w in net.wires
    ensures w.src < |net.nodes| && Acceptable(w.tx) && Sender(net, w.dest, w.tx, w.src)
  {
  }

  lemma ArriveOk(net: Net, at: int, d: int, w: Wire)
    requires AllOk(net, at, d) && w in net.wires && w.dest < |net.nodes|
    ensures AllOk(Step(net, at, d, Arrive(w)), at, d)
  {
    hide NetOk;
    WireOk(Alive(net), at, d, w);
    assert NodeFiled(net, w.dest);
    hide AllFiled, NodeFiled, Accepts, Clashes, OnlyFades;
    ReceivedOk(net, at, d, w.dest, w.tx, w.src);
    ReceivedCases(net, w.dest, w.tx, w.src);
    var r := Received(net, w.dest, w.tx, w.src);
    DropAllOk(r, at, d, w);
    AliveSame(r, r.(wires := r.wires - {w}));
    NotedAllOk(r.(wires := r.wires - {w}), at, d, w.dest, w.tx);
  }

  lemma InjectOk(net: Net, at: int, d: int, n: nat, tx: Tx)
    requires AllOk(net, at, d) && n < |net.nodes|
    ensures AllOk(Noted(Received(net, n, tx, |net.nodes|), n, tx), at, d)
  {
    hide NetOk, Accepts, Clashes, OnlyFades;
    assert NodeFiled(net, n);
    ReceivedOk(net, at, d, n, tx, |net.nodes|);
    ReceivedCases(net, n, tx, |net.nodes|);
    NotedAllOk(Received(net, n, tx, |net.nodes|), at, d, n, tx);
  }

  /** What remains known, however the records fade. */
  ghost predicate StillKnown(s: Tables, s': Tables) {
    forall k :: Known(s, k) ==> Known(s', k)
  }

  lemma AgedKnown(s: Tables, at: int, k: Key, now: int)
    requires k in s.aging && s.aging[k].tx.key == k
    ensures StillKnown(s, AgeOne(s, at, k, now)) && Onward(s, AgeOne(s, at, k, now))
  {
    AgeOneRecords(s, at, k, now);
  }

  lemma LiveAged(s: Tables, at: int, n: nat, again: set<At>, k: Key, now: int)
    requires k in s.aging && s.aging[k].tx.key == k && forall x :: (n, x) in again ==> IsPromised(s, x)
    ensures var l, a := Live(s, n, again), Live(AgeOne(s, at, k, now), n, again);
      && a.aged == l.aged
      && if Ripe(s, at, k, now)
         then k in l.aging && l.aging[k] == s.aging[k] && Ripe(l, at, k, now) && a.aging == l.aging - {k} && IsPromised(a, k)
         else a.aging == l.aging
  {
    AgeOneRecords(s, at, k, now);
    hide AgeOne;
    KeptChanges(s.aging, n, again, k, s.aging[k]);
  }

  lemma LiveKnown(s: Tables, s': Tables, n: nat, again: set<At>)
    requires StillKnown(s, s') && (forall k :: (n, k) in again ==> IsPromised(s, k)) && Onward(s, s')
    ensures StillKnown(Live(s, n, again), Live(s', n, again)) && Onward(Live(s, n, again), Live(s', n, again))
  {
    forall a ensures Next(Live(s, n, again), a) <= Next(Live(s', n, again), a) { assert Next(s, a) <= Next(s', a); }
    forall k | (n, k) in again ensures IsPromised(s', k) { assert IsPromised(s, k) && Next(s, k.from) <= Next(s', k.from); }
    LiveLooks(s, n, again);
    LiveLooks(s', n, again);
    hide Live, Unseen;
    forall k | Known(Live(s, n, again), k) ensures Known(Live(s', n, again), k) { assert Known(s, k) && Known(s', k); }
  }

  lemma AgedCases(net: Net, at: int, n: nat, k: Key)
    requires n < |net.nodes| && k in net.nodes[n].aging && NodeFiled(net, n)
    ensures var a, a' := Alive(net), Alive(Aged1(net, at, n, k));
      if Ripe(net.nodes[n], at, k, net.now) then Promises(a, at, n, k, a') else OnlyFades(a, n, a') && a'.promised == a.promised
  {
    hide Live, AgeOne, Known, Onward;
    var s, net' := net.nodes[n], Aged1(net, at, n, k);
    AgedKnown(s, at, k, net.now);
    LiveKnown(s, AgeOne(s, at, k, net.now), n, net.again);
    LiveAged(s, at, n, net.again, k, net.now);
    AliveNodes(net, n, net');
    hide Ripe, NodeFiled, IsPromised;
  }

  lemma AgedFiled(net: Net, at: int, n: nat, k: Key)
    requires n < |net.nodes| && k in net.nodes[n].aging && AllFiled(net)
    ensures AllFiled(Aged1(net, at, n, k))
  {
    var net' := Aged1(net, at, n, k);
    assert NodeFiled(net, n);
    AgeOneRecords(net.nodes[n], at, k, net.now);
    forall m | 0 <= m < |net'.nodes| ensures NodeFiled(net', m) { assert NodeFiled(net, m); }
  }

  lemma AgeOk(net: Net, at: int, d: int, n: nat, k: Key)
    requires AllOk(net, at, d) && n < |net.nodes| && k in net.nodes[n].aging
    ensures AllOk(Aged1(net, at, n, k), at, d)
  {
    hide NetOk, Promises, OnlyFades;
    assert NodeFiled(net, n);
    AgedCases(net, at, n, k);
    AgedFiled(net, at, n, k);
    if Ripe(net.nodes[n], at, k, net.now) {
      PromiseOk(Alive(net), at, d, n, k, Alive(Aged1(net, at, n, k)));
    } else {
      FadeOk(Alive(net), at, d, n, Alive(Aged1(net, at, n, k)));
    }
  }

  /** Exactly which commits make a node forget a key. */
  lemma ForgottenKeys(s: Tables, tx: Tx, k: Key)
    ensures !Unseen(s, k) && Unseen(Committed(s, tx), k) <==> k == tx.key && Reopens(s, tx)
  {
    CommittedRecords(s, tx);
  }

  lemma LiveCommitted(s: Tables, n: nat, again: set<At>, tx: Tx)
    ensures var l, c := Live(s, n, again), Live(Committed(s, tx), n, again);
      c.aging == l.aging && forall k :: k in c.aged ==> k in l.aged && c.aged[k] == l.aged[k]
  {
    CommittedRecords(s, tx);
  }

  lemma CommittedKnown(s: Tables, tx: Tx)
    requires !Reopens(s, tx)
    ensures StillKnown(s, Committed(s, tx)) && Onward(s, Committed(s, tx))
  {
    CommittedRecords(s, tx);
    hide Reopens, Committed;
    forall k | Known(s, k) ensures Known(Committed(s, tx), k) { ForgottenKeys(s, tx, k); }
  }

  lemma CommitFades(net: Net, n: nat, tx: Tx)
    requires n < |net.nodes| && NodeFiled(net, n) && !Reopens(net.nodes[n], tx)
    ensures OnlyFades(Alive(net), n, Alive(net.(nodes := net.nodes[n := Committed(net.nodes[n], tx)])))
  {
    hide Live, Committed, Known, Onward, Reopens;
    var s, net' := net.nodes[n], net.(nodes := net.nodes[n := Committed(net.nodes[n], tx)]);
    CommittedKnown(s, tx);
    LiveKnown(s, Committed(s, tx), n, net.again);
    LiveCommitted(s, n, net.again, tx);
    AliveNodes(net, n, net');
  }

  lemma CommitOk(net: Net, at: int, d: int, n: nat, tx: Tx)
    requires AllOk(net, at, d) && n < |net.nodes| && !Reopens(net.nodes[n], tx)
    ensures AllOk(net.(nodes := net.nodes[n := Committed(net.nodes[n], tx)]), at, d)
  {
    var net' := net.(nodes := net.nodes[n := Committed(net.nodes[n], tx)]);
    hide NetOk, OnlyFades, Reopens;
    assert NodeFiled(net, n);
    CommitFades(net, n, tx);
    FadeOk(Alive(net), at, d, n, Alive(net'));
    CommittedRecords(net.nodes[n], tx);
    forall m | 0 <= m < |net'.nodes| ensures NodeFiled(net', m) { assert NodeFiled(net, m); }
  }

  lemma TickAllOk(net: Net, at: int, d: int)
    requires AllOk(net, at, d) && forall w :: w in net.wires ==> net.now + 1 <= w.sent + d
    ensures AllOk(net.(now := net.now + 1), at, d)
  {
    var net' := net.(now := net.now + 1);
    AliveSame(net, net');
    hide NetOk;
    TickOk(Alive(net), at, d);
    assert Alive(net') == Alive(net).(now := net.now + 1);
    forall m | 0 <= m < |net'.nodes| ensures NodeFiled(net', m) { assert NodeFiled(net, m); }
  }

  // ---------- creating a transaction ----------

  lemma CreatedRecords(s: Tables, tx: Tx, now: int)
    ensures var c := Created(s, tx, now);
      c.next == s.next && c.aged == s.aged && c.aging == s.aging[tx.key := Aging(tx, now)]
  {
    CheckedSettles(s.(aging := s.aging[tx.key := Aging(tx, now)]), tx.key.from, tx.key.num, tx.dep);
  }

  /** A new key: the creator accepts its own transaction. */
  lemma CreatedNew(net: Net, n: nat, tx: Tx)
    requires n < |net.nodes| && NodeFiled(net, n) && Acceptable(tx) && Unseen(net.nodes[n], tx.key)
    ensures Accepts(Alive(net), n, tx, |net.nodes|, Alive(Spawned(net, n, tx)))
  {
    var s, net' := net.nodes[n], Spawned(net, n, tx);
    CreatedRecords(s, tx, net.now);
    AliveNodes(net, n, net');
    LiveLooks(s, n, net.again);
    KeptChanges(s.aging, n, net.again, tx.key, Aging(tx, net.now));
    assert Alive(net').ended == Alive(net).ended;
    hide Kept, Created;
  }

  /** A promised key: the creator's record is put aside, and relays go out. */
  ghost function PutAside(net: Net, n: nat, tx: Tx): Net
    requires n < |net.nodes|
  {
    Alive(Spawned(net, n, tx)).(wires := net.wires)
  }

  lemma PutAsideNode(s: Tables, n: nat, again: set<At>, tx: Tx, now: int)
    requires IsPromised(s, tx.key) && forall k :: (n, k) in again ==> IsPromised(s, k)
    ensures var l, c := Live(s, n, again), Live(Created(s, tx, now), n, again + {(n, tx.key)});
      && Onward(l, c) && StillKnown(l, c)
      && (forall k :: k in c.aging ==> k in l.aging && c.aging[k] == l.aging[k])
      && (forall k :: k in c.aged ==> k in l.aged && c.aged[k] == l.aged[k])
      && IsPromised(c, tx.key) && tx.key !in c.aging
  {
    CreatedRecords(s, tx, now);
    hide Created;
    var l, c := Live(s, n, again), Live(Created(s, tx, now), n, again + {(n, tx.key)});
    assert forall k :: k in c.aging <==> k != tx.key && k in l.aging;
    assert forall k :: k in c.aged <==> k != tx.key && k in l.aged;
  }

  lemma PutAsideFades(net: Net, n: nat, tx: Tx)
    requires n < |net.nodes| && NodeFiled(net, n) && IsPromised(net.nodes[n], tx.key)
    ensures Fades(Alive(net), n, PutAside(net, n, tx)) && PutAside(net, n, tx).promised == Alive(net).promised
    ensures var was, now := Alive(net).nodes[n].aged, PutAside(net, n, tx).nodes[n].aged;
      forall k :: k in now ==> k in was && now[k] == was[k]
    ensures Processed(PutAside(net, n, tx).nodes[n], tx)
  {
    var s, net' := net.nodes[n], Spawned(net, n, tx);
    PutAsideNode(s, n, net.again, tx, net.now);
    AliveNodes(net, n, net');
    hide Live, Created, NodeFiled, Onward;
  }

  /** Ended keys only count where there is a conflict record. */
  lemma LessEnded(net: Net, n: nat, tx: Tx)
    requires n < |net.nodes| && EndedOk(Alive(net)) && IsPromised(net.nodes[n], tx.key)
    ensures EndedOk(PutAside(net, n, tx))
  {
    var net', p := Spawned(net, n, tx), PutAside(net, n, tx);
    AliveNodes(net, n, net');
    CreatedRecords(net.nodes[n], tx, net.now);
    hide Created;
    forall m, k | 0 <= m < |p.nodes| && k in p.nodes[m].aged ensures EndedBy(p, m, k) {
      assert k in Alive(net).nodes[m].aged && EndedBy(Alive(net), m, k);
    }
  }

  lemma RelaysOk(net: Net, at: int, d: int, n: nat, tx: Tx)
    requires NetOk(net, at, d) && n < |net.nodes| && Acceptable(tx) && Processed(net.nodes[n], tx)
    ensures NetOk(net.(wires := net.wires + Relays(|net.nodes|, n, |net.nodes|, tx, net.now)), at, d)
  {
    var net' := net.(wires := net.wires + Relays(|net.nodes|, n, |net.nodes|, tx, net.now));
    forall a, m | a in net'.accepted && 0 <= m < |net'.nodes| && m != a.0 ensures Reaches(net', a, m) {
      assert Reaches(net, a, m);
    }
    SameAccepts(net, d, net');
    SamePromises(net, at, d, net');
    SameTables(net, net');
    SameSights(net, net');
  }

  lemma PutAsideOk(net: Net, at: int, d: int, n: nat, tx: Tx)
    requires NetOk(Alive(net), at, d) && n < |net.nodes| && NodeFiled(net, n) && IsPromised(net.nodes[n], tx.key)
    ensures NetOk(PutAside(net, n, tx), at, d) && Processed(PutAside(net, n, tx).nodes[n], tx)
  {
    var a, p := Alive(net), PutAside(net, n, tx);
    PutAsideFades(net, n, tx);
    LessEnded(net, n, tx);
    hide Alive, Spawned, PutAside, Fades, TablesOk;
    FadeSpread(a, d, n, p);
    FadePromises(a, at, d, n, p);
    FadeSeen(a, n, p);
    SameSize(a, n, p);
    forall m | 0 <= m < |p.nodes| ensures TablesOk(p, m) { FadeTables(a, n, p, m); }
  }

  lemma SameSize(net: Net, n: nat, net': Net)
    requires Fades(net, n, net')
    ensures |net'.nodes| == |net.nodes|
  {
  }

  lemma SpawnedFiled(net: Net, n: nat, tx: Tx)
    requires n < |net.nodes| && AllFiled(net)
    ensures AllFiled(Spawned(net, n, tx))
  {
    var net' := Spawned(net, n, tx);
    CreatedRecords(net.nodes[n], tx, net.now);
    hide Created;
    forall m | 0 <= m < |net'.nodes| ensures NodeFiled(net', m) { assert NodeFiled(net, m); }
  }

  lemma SpawnedOk(net: Net, at: int, d: int, n: nat, tx: Tx)
    requires AllOk(net, at, d) && n < |net.nodes| && Acceptable(tx)
    requires Unseen(net.nodes[n], tx.key) || IsPromised(net.nodes[n], tx.key)
    ensures AllOk(Spawned(net, n, tx), at, d) && n < |Alive(Spawned(net, n, tx)).nodes|
    ensures Processed(Alive(Spawned(net, n, tx)).nodes[n], tx)
  {
    var a, a' := Alive(net), Alive(Spawned(net, n, tx));
    assert NodeFiled(net, n);
    SpawnedFiled(net, n, tx);
    hide NetOk, NodeFiled, AllFiled, Created, Live;
    if Unseen(net.nodes[n], tx.key) {
      CreatedNew(net, n, tx);
      AcceptOk(a, at, d, n, tx, |net.nodes|, a');
    } else {
      var p := PutAside(net, n, tx);
      PutAsideOk(net, at, d, n, tx);
      RelaysOk(p, at, d, n, tx);
      assert a' == p.(wires := p.wires + Relays(|p.nodes|, n, |p.nodes|, tx, p.now));
    }
  }

  lemma CreateOk(net: Net, at: int, d: int, n: nat, tx: Tx)
    requires AllOk(net, at, d) && n < |net.nodes| && Acceptable(tx)
    requires Unseen(net.nodes[n], tx.key) || IsPromised(net.nodes[n], tx.key)
    ensures AllOk(Noted(Spawned(net, n, tx), n, tx), at, d)
  {
    hide AllOk;
    SpawnedOk(net, at, d, n, tx);
    NotedAllOk(Spawned(net, n, tx), at, d, n, tx);
  }

  // ---------- runs ----------

  /** Every event keeps the invariant. */
  lemma StepOk(net: Net, at: int, d: int, e: Event)
    requires AllOk(net, at, d) && Enabled(net, d, e)
    ensures AllOk(Step(net, at, d, e), at, d)
  {
    hide AllOk, Reopens;
    match e
    case Tick => TickAllOk(net, at, d);
    case Arrive(w) => ArriveOk(net, at, d, w);
    case Inject(n, tx) => InjectOk(net, at, d, n, tx);
    case Create(n, tx) => CreateOk(net, at, d, n, tx);
    case Age(n, k) => AgeOk(net, at, d, n, k);
    case Commit(n, tx) => CommitOk(net, at, d, n, tx);
  }

  lemma StartOk(count: nat, at: int, d: int)
    requires d >= 0
    ensures AllOk(Start(count), at, d)
  {
    var a := Alive(Start(count));
    assert forall m :: 0 <= m < count ==> a.nodes[m].aging == map[] && a.nodes[m].aged == map[];
  }

  lemma {:induction false} RunOk(nets: seq<Net>, es: seq<Event>, at: int, d: int, count: nat, i: nat)
    requires IsRun(nets, es, at, d, count) && d >= 0 && i < |nets|
    ensures AllOk(nets[i], at, d)
  {
    hide AllOk;
    if i == 0 {
      StartOk(count, at, d);
    } else {
      RunOk(nets, es, at, d, count, i - 1);
      assert Happens(nets[i - 1], es[i - 1], nets[i - 1 + 1], at, d);
      StepOk(nets[i - 1], at, d, es[i - 1]);
    }
  }

  lemma ReachableOk(net: Net, at: int, d: int, count: nat)
    requires Reachable(net, at, d, count) && d >= 0
    ensures NetOk(Alive(net), at, d)
  {
    hide NetOk;
    var nets, es :| IsPath(nets, es, at, d) && nets[0] == Start(count) && nets[|es|] == net;
    RunOk(nets, es, at, d, count, |es|);
  }
}
