/**
 * Measuring distances by flooding.
 *
 * One node sends a ping with distance 0 to its peers.  A node that hears a smaller distance than it has on
 * record for this ping notes it and sends one more to all its peers.  The flood ends, and then every record is
 * one less than the number of hops from the sender.
 */
module PingFlood {
  import opened Prelude

  /** The table of pings seen; in overwriting (diameter) mode a smaller distance replaces a larger one. */
  predicate Improves(pings: map<string, nat>, id: string, dnext: nat, overwrite: bool) {
    id !in pings || (overwrite && pings[id] > dnext)
  }

  function Added(pings: map<string, nat>, id: string, dnext: nat, overwrite: bool): map<string, nat> {
    if Improves(pings, id, dnext, overwrite) then pings[id := dnext] else pings
  }

  class Server {
    var pings: map<string, nat>

    constructor ()
      ensures pings == map[]
    {
      pings := map[];
    }

    method AddPing(id: string, dnext: nat, overwrite: bool) returns (isNew: bool)
      modifies this
      ensures pings == Added(old(pings), id, dnext, overwrite)
      ensures isNew == Improves(old(pings), id, dnext, overwrite)
      ensures isNew <==> id !in old(pings) || (overwrite && old(pings)[id] > dnext)
      ensures pings == if isNew then old(pings)[id := dnext] else old(pings)
    {
      if overwrite {
        if id !in pings || pings[id] > dnext {
          pings := pings[id := dnext];
          return true;
        }
        return false;
      }
      if id in pings {
        return false;
      }
      pings := pings[id := dnext];
      isNew := true;
    }
  }

  /** The table after some distances for one ping have been heard, in turn. */
  function HeardAll(pings: map<string, nat>, id: string, ds: seq<nat>, overwrite: bool): map<string, nat>
    decreases |ds|
  {
    if ds == [] then pings else Added(HeardAll(pings, id, ds[..|ds| - 1], overwrite), id, ds[|ds| - 1], overwrite)
  }

  /** In latency mode the first distance heard stays, in diameter mode the smallest one. */
  lemma {:induction false} FirstOrSmallest(pings: map<string, nat>, id: string, ds: seq<nat>, overwrite: bool)
    requires id !in pings && ds != []
    ensures var after := HeardAll(pings, id, ds, overwrite);
      && id in after && (forall x :: x != id ==> (x in after <==> x in pings) && (x in pings ==> after[x] == pings[x]))
      && if overwrite then after[id] in ds && forall i :: 0 <= i < |ds| ==> after[id] <= ds[i] else after[id] == ds[0]
    decreases |ds|
  {
    if |ds| == 1 {
      assert HeardAll(pings, id, ds[..0], overwrite) == pings;
    } else {
      FirstOrSmallest(pings, id, ds[..|ds| - 1], overwrite);
      assert forall i :: 0 <= i < |ds| - 1 ==> ds[..|ds| - 1][i] == ds[i];
    }
  }

  // ---------- the flood ----------

  type Graph = seq<set<nat>>

  datatype Ping = Ping(dest: nat, dnext: nat)

  /** One ping id: the tables of all nodes and the pings under way. */
  datatype Flood = Flood(tables: seq<map<string, nat>>, pings: multiset<Ping>)

  ghost predicate GraphOk(g: Graph) {
    forall v, p :: 0 <= v < |g| && p in g[v] ==> p < |g|
  }

  ghost function ToPeers(g: Graph, v: nat, dnext: nat): multiset<Ping>
    requires v < |g|
  {
    multiset(set p | p in g[v] :: Ping(p, dnext))
  }

  ghost function Start(g: Graph, id: string, origin: nat): Flood
    requires origin < |g|
  {
    Flood(seq(|g|, v => if v == origin then map[id := 0] else map[]), ToPeers(g, origin, 0))
  }

  /** A ping is handled at its destination. */
  ghost function Handle(g: Graph, id: string, f: Flood, m: Ping): Flood
    requires |f.tables| == |g| && m.dest < |g|
  {
    var t := f.tables[m.dest];
    Flood(f.tables[m.dest := Added(t, id, m.dnext, true)],
          f.pings - multiset{m} + if Improves(t, id, m.dnext, true) then ToPeers(g, m.dest, m.dnext + 1) else multiset{})
  }

  /** Some walk of k hops leads from the origin to v. */
  ghost predicate Walk(g: Graph, origin: nat, v: nat, k: nat)
    decreases k
  {
    if k == 0 then v == origin else exists u :: 0 <= u < |g| && v in g[u] && Walk(g, origin, u, k - 1)
  }

  /** The hop distance. */
  ghost predicate Distance(g: Graph, origin: nat, v: nat, k: nat) {
    Walk(g, origin, v, k) && forall j :: 0 <= j < k ==> !Walk(g, origin, v, j)
  }

  /** What v has told its peers: the origin 0, every other node one more than its record. */
  function Told(f: Flood, id: string, origin: nat, v: nat): nat
    requires v < |f.tables| && id in f.tables[v]
  {
    if v == origin then 0 else f.tables[v][id] + 1
  }

  /** Nothing shorter than a real walk is ever recorded or sent. */
  ghost predicate Honest(g: Graph, id: string, origin: nat, f: Flood) {
    && (forall v :: 0 <= v < |f.tables| && v != origin && id in f.tables[v] ==> Walk(g, origin, v, f.tables[v][id] + 1))
    && (forall m :: m in f.pings ==> m.dest < |g| && Walk(g, origin, m.dest, m.dnext + 1))
  }

  /** What a node told a peer is on record there or still under way. */
  ghost predicate Heard(f: Flood, id: string, p: nat, d: nat)
    requires p < |f.tables|
  {
    (id in f.tables[p] && f.tables[p][id] <= d) || Ping(p, d) in f.pings
  }

  ghost predicate Passed(g: Graph, id: string, origin: nat, f: Flood, v: nat)
    requires v < |f.tables| == |g| && GraphOk(g)
  {
    id in f.tables[v] ==> forall p :: p in g[v] ==> Heard(f, id, p, Told(f, id, origin, v))
  }

  ghost predicate FloodOk(g: Graph, id: string, origin: nat, f: Flood) {
    && GraphOk(g) && |f.tables| == |g| && origin < |g|
    && id in f.tables[origin] && f.tables[origin][id] == 0
    && Honest(g, id, origin, f)
    && forall v :: 0 <= v < |g| ==> Passed(g, id, origin, f, v)
  }

  lemma StartOk(g: Graph, id: string, origin: nat)
    requires GraphOk(g) && origin < |g|
    ensures FloodOk(g, id, origin, Start(g, id, origin))
  {
    var f := Start(g, id, origin);
    forall m | m in f.pings ensures m.dest < |g| && Walk(g, origin, m.dest, m.dnext + 1) {
      assert Walk(g, origin, origin, 0);
    }
    forall v | 0 <= v < |g| ensures Passed(g, id, origin, f, v) {
      if v == origin {
        forall p | p in g[v] ensures Heard(f, id, p, 0) { assert Ping(p, 0) in f.pings; }
      }
    }
  }

  /** One more hop. */
  lemma WalkOn(g: Graph, origin: nat, u: nat, v: nat, k: nat)
    requires u < |g| && v in g[u] && Walk(g, origin, u, k)
    ensures Walk(g, origin, v, k + 1)
  {
  }

  lemma HandleHonest(g: Graph, id: string, origin: nat, f: Flood, m: Ping)
    requires GraphOk(g) && |f.tables| == |g| && Honest(g, id, origin, f) && m in f.pings
    ensures m.dest < |g| && Honest(g, id, origin, Handle(g, id, f, m))
  {
    hide Walk, Handle, ToPeers, Improves;
    var f' := Handle(g, id, f, m);
    HandlePings(g, id, f, m);
    forall x | x in f'.pings ensures x.dest < |g| && Walk(g, origin, x.dest, x.dnext + 1) {
      if x !in f.pings {
        WalkOn(g, origin, m.dest, x.dest, m.dnext + 1);
      }
    }
    HandleRecords(g, id, origin, f, m);
  }

  /** Every ping after a step was under way before or has just been sent. */
  lemma HandlePings(g: Graph, id: string, f: Flood, m: Ping)
    requires GraphOk(g) && |f.tables| == |g| && m.dest < |g|
    ensures forall x :: x in Handle(g, id, f, m).pings ==>
      x in f.pings || (x.dest < |g| && x.dest in g[m.dest] && x.dnext == m.dnext + 1)
  {
  }

  lemma HandleRecords(g: Graph, id: string, origin: nat, f: Flood, m: Ping)
    requires GraphOk(g) && |f.tables| == |g| && Honest(g, id, origin, f) && m in f.pings && m.dest < |g|
    ensures var f' := Handle(g, id, f, m);
      |f'.tables| == |g| && forall v :: 0 <= v < |g| && v != origin && id in f'.tables[v] ==> Walk(g, origin, v, f'.tables[v][id] + 1)
  {
    hide Walk;
  }

  lemma HandlePassed(g: Graph, id: string, origin: nat, f: Flood, m: Ping, v: nat)
    requires FloodOk(g, id, origin, f) && m in f.pings && m.dest < |g| && v < |g|
    ensures Passed(g, id, origin, Handle(g, id, f, m), v)
  {
    hide Walk, Honest;
    var f' := Handle(g, id, f, m);
    assert Passed(g, id, origin, f, v);
    if id in f'.tables[v] {
      forall p | p in g[v] ensures Heard(f', id, p, Told(f', id, origin, v)) {
        if v == m.dest && Improves(f.tables[v], id, m.dnext, true) {
          assert v != origin;
          assert Ping(p, m.dnext + 1) in ToPeers(g, v, m.dnext + 1);
        } else {
          assert f'.tables[v] == f.tables[v];
          StillHeard(g, id, f, m, p, Told(f, id, origin, v));
        }
      }
    }
  }

  /** A handled ping leaves its distance on record. */
  lemma StillHeard(g: Graph, id: string, f: Flood, m: Ping, p: nat, d: nat)
    requires |f.tables| == |g| && m.dest < |g| && m in f.pings && p < |g| && Heard(f, id, p, d)
    ensures Heard(Handle(g, id, f, m), id, p, d)
  {
  }

  /** Handling a ping keeps the invariant. */
  lemma HandleOk(g: Graph, id: string, origin: nat, f: Flood, m: Ping)
    requires FloodOk(g, id, origin, f) && m in f.pings
    ensures m.dest < |g| && FloodOk(g, id, origin, Handle(g, id, f, m))
  {
    HandleHonest(g, id, origin, f, m);
    forall v | 0 <= v < |g| ensures Passed(g, id, origin, Handle(g, id, f, m), v) {
      HandlePassed(g, id, origin, f, m, v);
    }
  }

  // ---------- runs ----------

  ghost predicate IsRun(g: Graph, id: string, origin: nat, fs: seq<Flood>, ms: seq<Ping>) {
    && origin < |g| && |fs| == |ms| + 1 && fs[0] == Start(g, id, origin)
    && forall i :: 0 <= i < |ms| ==>
         && ms[i] in fs[i].pings && |fs[i].tables| == |g| && ms[i].dest < |g|
         && fs[i + 1] == Handle(g, id, fs[i], ms[i])
  }

  lemma {:induction false} RunOk(g: Graph, id: string, origin: nat, fs: seq<Flood>, ms: seq<Ping>, i: nat)
    requires GraphOk(g) && IsRun(g, id, origin, fs, ms) && i < |fs|
    ensures FloodOk(g, id, origin, fs[i])
  {
    if i == 0 {
      StartOk(g, id, origin);
    } else {
      RunOk(g, id, origin, fs, ms, i - 1);
      HandleOk(g, id, origin, fs[i - 1], ms[i - 1]);
    }
  }

  /** At no time is a record below the hop distance minus one. */
  lemma NeverTooShort(g: Graph, id: string, origin: nat, fs: seq<Flood>, ms: seq<Ping>, i: nat, v: nat, k: nat)
    requires GraphOk(g) && IsRun(g, id, origin, fs, ms) && i < |fs|
    requires v < |g| && v != origin && Distance(g, origin, v, k)
    ensures v < |fs[i].tables| && (id in fs[i].tables[v] ==> fs[i].tables[v][id] + 1 >= k)
  {
    RunOk(g, id, origin, fs, ms, i);
  }

  lemma {:induction false} QuietReach(g: Graph, id: string, origin: nat, f: Flood, v: nat, k: nat)
    requires FloodOk(g, id, origin, f) && f.pings == multiset{} && v < |g| && Walk(g, origin, v, k)
    ensures id in f.tables[v] && (v == origin || f.tables[v][id] + 1 <= k)
    decreases k
  {
    if k > 0 {
      var u :| 0 <= u < |g| && v in g[u] && Walk(g, origin, u, k - 1);
      QuietReach(g, id, origin, f, u, k - 1);
      assert Passed(g, id, origin, f, u);
      assert Heard(f, id, v, Told(f, id, origin, u));
    }
  }

  /** When no ping is under way, every record is exactly the hop distance minus one, and exists wherever a walk leads. */
  lemma QuietIsExact(g: Graph, id: string, origin: nat, fs: seq<Flood>, ms: seq<Ping>, v: nat, k: nat)
    requires GraphOk(g) && IsRun(g, id, origin, fs, ms) && fs[|ms|].pings == multiset{}
    requires v < |g| && v != origin && Distance(g, origin, v, k)
    ensures v < |fs[|ms|].tables| && id in fs[|ms|].tables[v] && fs[|ms|].tables[v][id] + 1 == k
  {
    RunOk(g, id, origin, fs, ms, |ms|);
    QuietReach(g, id, origin, fs[|ms|], v, k);
  }

  // ---------- the flood ends ----------

  /** Nodes without a record. */
  ghost function Silent(tables: seq<map<string, nat>>, id: string): nat {
    if tables == [] then 0 else (if id in tables[0] then 0 else 1) + Silent(tables[1..], id)
  }

  /** The sum of all records. */
  ghost function Total(tables: seq<map<string, nat>>, id: string): nat {
    if tables == [] then 0 else (if id in tables[0] then tables[0][id] else 0) + Total(tables[1..], id)
  }

  lemma {:induction false} UpdateMeasure(tables: seq<map<string, nat>>, id: string, v: nat, d: nat)
    requires v < |tables| && Improves(tables[v], id, d, true)
    ensures var after := tables[v := Added(tables[v], id, d, true)];
      if id in tables[v] then Silent(after, id) == Silent(tables, id) && Total(after, id) < Total(tables, id)
      else Silent(after, id) < Silent(tables, id)
    decreases |tables|
  {
    var after := tables[v := Added(tables[v], id, d, true)];
    if v > 0 {
      UpdateMeasure(tables[1..], id, v - 1, d);
      assert after[1..] == tables[1..][v - 1 := Added(tables[1..][v - 1], id, d, true)];
    } else {
      assert after[1..] == tables[1..];
    }
  }

  /** Each handled ping lowers (nodes without record, sum of records, pings under way), in that order of importance. */
  lemma HandleDecreases(g: Graph, id: string, f: Flood, m: Ping)
    requires |f.tables| == |g| && m.dest < |g| && m in f.pings
    ensures var f' := Handle(g, id, f, m);
      || Silent(f'.tables, id) < Silent(f.tables, id)
      || (Silent(f'.tables, id) == Silent(f.tables, id) && Total(f'.tables, id) < Total(f.tables, id))
      || (f'.tables == f.tables && |f'.pings| < |f.pings|)
  {
    if Improves(f.tables[m.dest], id, m.dnext, true) {
      UpdateMeasure(f.tables, id, m.dest, m.dnext);
    } else {
      assert f.tables[m.dest := f.tables[m.dest]] == f.tables;
    }
  }

  /** The flood ends: no run handles pings for ever. */
  lemma {:induction false} NoEndlessFlood(g: Graph, id: string, run: nat -> Flood, handled: nat -> Ping, i: nat)
    requires forall j: nat :: |run(j).tables| == |g| && handled(j) in run(j).pings && handled(j).dest < |g|
                         && run(j + 1) == Handle(g, id, run(j), handled(j))
    ensures false
    decreases Silent(run(i).tables, id), Total(run(i).tables, id), |run(i).pings|
  {
    HandleDecreases(g, id, run(i), handled(i));
    NoEndlessFlood(g, id, run, handled, i + 1);
  }
}
