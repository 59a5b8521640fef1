/**
 * Ageing at many nodes: a timed network with broadcast delay at most `d` and ageing threshold `at`.
 *
 * A node that accepts a transaction relays it to every other node except the one it came from.  Anything may be
 * injected from outside at any node at any time.  The history of sights, accepts, ageing promises and conflicts is
 * part of the state so that statements over whole runs become invariants.
 */
module AgeingNetwork {
  import opened Prelude
  import opened Ageing
  import opened Wakeups
  import opened Turns

  datatype Wire = Wire(src: nat, dest: nat, tx: Tx, sent: int)

  datatype Stamp = Stamp(tx: Tx, time: int)

  type At = (nat, Key)

  type Sight = (nat, Tx)

  /**
   * `accepted`: when a node started ageing a key, and with which transaction; `promised`: when its ageing
   * monitor promised it; `ended`: which transaction ended the ageing of a key; `seen`: when a node first saw a
   * transaction, whether it took it or not; `again`: the keys that a node created although they were promised there.
   */
  datatype Net = Net(now: int, nodes: seq<Tables>, wires: set<Wire>,
                     accepted: map<At, Stamp>, promised: map<At, Stamp>, ended: map<At, Tx>, seen: map<Sight, int>,
                     again: set<At>)

  datatype Event =
    | Tick
    | Arrive(w: Wire)
    | Inject(n: nat, tx: Tx)
    | Create(n: nat, tx: Tx)
    | Age(n: nat, key: Key)
    | Commit(n: nat, tx: Tx)

  /** Relays go to everybody but the relaying node and the one the transaction came from. */
  ghost function Relays(count: nat, src: nat, except: nat, tx: Tx, now: int): set<Wire> {
    set m | 0 <= m < count && m != src && m != except :: Wire(src, m, tx, now)
  }

  predicate Conflicts(s: Tables, tx: Tx) {
    Acceptable(tx) && tx.key in s.aging && s.aging[tx.key].tx != tx
  }

  /** Node n receives `tx`; `from` is the relaying node, or |nodes| for an outside source. */
  ghost function Received(net: Net, n: nat, tx: Tx, from: nat): Net
    requires n < |net.nodes|
  {
    var s := net.nodes[n];
    var k := (n, tx.key);
    net.(nodes := net.nodes[n := Verified(s, tx, net.now)],
         wires := if IsNew(s, tx) then net.wires + Relays(|net.nodes|, n, from, tx, net.now) else net.wires,
         accepted := if IsNew(s, tx) then net.accepted[k := Stamp(tx, net.now)] else net.accepted,
         ended := if Conflicts(s, tx) then net.ended[k := tx] else net.ended)
  }

  /** Node n has seen `tx` by now. */
  ghost function Noted(net: Net, n: nat, tx: Tx): Net {
    net.(seen := if (n, tx) in net.seen then net.seen else net.seen[(n, tx) := net.now])
  }

  /** Node n creates `tx`, whatever record it has of the key. */
  ghost function Spawned(net: Net, n: nat, tx: Tx): Net
    requires n < |net.nodes|
  {
    var s := net.nodes[n];
    var k := (n, tx.key);
    net.(nodes := net.nodes[n := Created(s, tx, net.now)],
         wires := net.wires + Relays(|net.nodes|, n, |net.nodes|, tx, net.now),
         accepted := if IsPromised(s, tx.key) then net.accepted else net.accepted[k := Stamp(tx, net.now)],
         again := if IsPromised(s, tx.key) then net.again + {k} else net.again)
  }

  /** The monitor promises the key when it has aged long enough and its dependencies are met. */
  predicate Ripe(s: Tables, at: int, k: Key, now: int) {
    k in s.aging && now - s.aging[k].time > at && Satisfied(s, s.aging[k].tx.key.from, s.aging[k].tx.key.num, s.aging[k].tx.dep)
  }

  ghost function Aged1(net: Net, at: int, n: nat, k: Key): Net
    requires n < |net.nodes| && k in net.nodes[n].aging
  {
    var s := net.nodes[n];
    net.(nodes := net.nodes[n := AgeOne(s, at, k, net.now)],
         promised := if Ripe(s, at, k, net.now) then net.promised[(n, k) := Stamp(s.aging[k].tx, net.now)] else net.promised)
  }

  /** Committing the transaction makes the node forget its key: the conflict record goes, and nothing is promised. */
  predicate Reopens(s: Tables, tx: Tx) {
    IsAhead(s, tx.key) && tx.key in s.aged && s.aged[tx.key].tx == tx && tx.key !in s.aging
  }

  /**
   * Which events can happen: delays are bounded, and no node starts anew with a key that it has a record of, be it
   * by creating the key over a record that is not promised, or by a commit that makes the node forget the key.
   */
  ghost predicate Enabled(net: Net, d: int, e: Event) {
    match e
    case Tick => forall w :: w in net.wires ==> net.now + 1 <= w.sent + d
    case Arrive(w) => w in net.wires && w.dest < |net.nodes|
    case Inject(n, _) => n < |net.nodes|
    case Create(n, tx) =>
      n < |net.nodes| && Acceptable(tx) && (Unseen(net.nodes[n], tx.key) || IsPromised(net.nodes[n], tx.key))
    case Age(n, k) => n < |net.nodes| && k in net.nodes[n].aging
    case Commit(n, tx) => n < |net.nodes| && !Reopens(net.nodes[n], tx)
  }

  ghost function Step(net: Net, at: int, d: int, e: Event): Net
    requires Enabled(net, d, e)
  {
    match e
    case Tick => net.(now := net.now + 1)
    case Arrive(w) => var r := Received(net, w.dest, w.tx, w.src); Noted(r.(wires := r.wires - {w}), w.dest, w.tx)
    case Inject(n, tx) => Noted(Received(net, n, tx, |net.nodes|), n, tx)
    case Create(n, tx) => Noted(Spawned(net, n, tx), n, tx)
    case Age(n, k) => Aged1(net, at, n, k)
    case Commit(n, tx) => net.(nodes := net.nodes[n := Committed(net.nodes[n], tx)])
  }

  ghost function Start(count: nat): Net {
    Net(0, seq(count, _ => EMPTY), {}, map[], map[], map[], map[], {})
  }

  // ---------- runs ----------

  /** The event can happen, and leads from one state to the other. */
  ghost predicate Happens(net: Net, e: Event, net': Net, at: int, d: int) {
    Enabled(net, d, e) && net' == Step(net, at, d, e)
  }

  /** The events lead from each state to the next. */
  ghost predicate IsPath(nets: seq<Net>, es: seq<Event>, at: int, d: int) {
    && |nets| == |es| + 1
    && forall i :: 0 <= i < |es| ==> Happens(nets[i], es[i], nets[i + 1], at, d)
  }

  ghost predicate IsRun(nets: seq<Net>, es: seq<Event>, at: int, d: int, count: nat) {
    IsPath(nets, es, at, d) && nets[0] == Start(count)
  }

  /** Some events lead from one state to the other. */
  ghost predicate Leads(net: Net, net': Net, at: int, d: int) {
    exists nets, es :: IsPath(nets, es, at, d) && nets[0] == net && nets[|es|] == net'
  }

  /** The last state of some run. */
  ghost predicate Reachable(net: Net, at: int, d: int, count: nat) {
    Leads(Start(count), net, at, d)
  }

  /** Every state of a run is the last state of a run. */
  lemma RunsReach(nets: seq<Net>, es: seq<Event>, at: int, d: int, count: nat, i: nat)
    requires IsRun(nets, es, at, d, count) && i < |nets|
    ensures Reachable(nets[i], at, d, count)
  {
    forall j | 0 <= j < i ensures Happens(nets[..i + 1][j], es[..i][j], nets[..i + 1][j + 1], at, d) {
      assert Happens(nets[j], es[j], nets[j + 1], at, d);
    }
    assert IsPath(nets[..i + 1], es[..i], at, d);
    assert nets[..i + 1][0] == Start(count) && nets[..i + 1][i] == nets[i];
  }
}
