/**
 * What stays true of a node's trees and records when an orphan tree is given up.
 */
module BlockDrops {
  import opened Prelude
  import opened Headers
  import opened Holdings
  import opened SearchTrees
  import opened BlockForest
  import opened BlockLinks
  import opened BlockIndex
  import opened BlockJoins
  import opened BlockSteps
  import opened RankOrder
  import opened Protocol

  /** The nodes outside the tree rooted at r stay, with their blocks. */
  ghost predicate Dropped(pool: Pool, f: Forest, r: Hash, g: Forest) {
    && g.nodes <= f.nodes && (forall n :: n in f.nodes ==> (n in g.nodes <==> Root(pool, f.held, n.hash) != r))
    && (forall h :: h in g.at <==> h in f.at && Root(pool, f.held, h) != r)
    && (forall h :: h in g.at ==> g.at[h] == f.at[h])
    && (forall h :: h in g.held <==> h in f.held && Root(pool, f.held, h) != r)
    && g.shape == f.shape - {r} && g.kids.Keys == g.nodes && (forall n :: n in g.nodes ==> n in f.kids && g.kids[n] == f.kids[n])
  }

  lemma DropIs(pool: Pool, f: Forest, r: Hash)
    requires ForestOk(pool, f)
    ensures Dropped(pool, f, r, Drop(pool, f, r))
  {
    hide ShapeOk, KidsOk, Root, Linked;
  }

  lemma AnchoredAfter(pool: Pool, f: Forest, r: Hash, g: Forest, h: Hash)
    requires Linked(pool) && NodesOk(pool, f) && Dropped(pool, f, r, g) && h in pool && r in pool && pool[r].depth > 0
    ensures Anchored(pool, f.held, h) ==> Anchored(pool, g.held, h)
    ensures h in g.at && Anchored(pool, g.held, h) ==> Anchored(pool, f.held, h)
  {
    assert g.held == Without(pool, f.held, r);
    if Root(pool, f.held, h) != r { RootAfterDrop(pool, f.held, r, h); }
  }

  lemma DropLists(pool: Pool, f: Forest, r: Hash, g: Forest)
    requires Dropped(pool, f, r, g) && ForestOk(pool, g) && ListsSpell(f.nodes, f.kids)
    ensures ListsSpell(g.nodes, g.kids)
  {
    forall p | p in g.nodes ensures ListIn(g.nodes, g.kids, p) {
      assert ListIn(f.nodes, f.kids, p) && KidsOk(pool, g, p);
      hide KidsOk;
      forall k | k in g.kids[p] ensures k in g.nodes { assert IsKid(pool, g, p, k); }
    }
  }

  lemma DropSearches(pool: Pool, f: Forest, r: Hash, g: Forest)
    requires Dropped(pool, f, r, g) && ForestOk(pool, g) && SearchesSpell(f.nodes, f.shape)
    ensures SearchesSpell(g.nodes, g.shape)
  {
    forall q | q in g.shape ensures Nodes(g.shape[q]) <= g.nodes && Spells(g.shape[q]) { assert ShapeOk(pool, g, q); }
  }

  lemma DropParents(pool: Pool, f: Forest, r: Hash, g: Forest)
    requires ForestOk(pool, f) && ForestOk(pool, g) && Dropped(pool, f, r, g) && ParentsSpell(pool, f) && RootsAlone(f)
    ensures ParentsSpell(pool, g) && RootsAlone(g)
  {
    hide ShapeOk, KidsOk, Root, Linked;
    forall n | n in g.nodes ensures n.parent == ParentOf(pool, g, n) {
      assert n.parent == ParentOf(pool, f, n);
      if n.hash in g.held { assert pool[n.hash].parent in g.at; }
    }
  }

  lemma DropLinks(pool: Pool, f: Forest, r: Hash, g: Forest)
    requires ForestOk(pool, f) && ForestOk(pool, g) && Dropped(pool, f, r, g) && LinksOk(pool, f)
    ensures LinksOk(pool, g)
  {
    hide ForestOk, Dropped, SearchesSpell, ListsSpell, ParentsSpell, RootsAlone;
    DropSearches(pool, f, r, g);
    DropLists(pool, f, r, g);
    DropParents(pool, f, r, g);
  }

  // ---------- trees and orphan lists ----------

  lemma DroppedTrees(pool: Pool, f: Forest, genesis: seq<Hash>, chains: seq<Node>, r: Hash)
    requires TreesOk(pool, f, genesis, chains) && r in f.shape && r in pool && pool[r].depth > 0
    ensures TreesOk(pool, Drop(pool, f, r), genesis, chains) && Dropped(pool, f, r, Drop(pool, f, r)) && r !in f.held
  {
    TreesParts(pool, f, genesis, chains);
    assert r !in f.held;
    hide ForestOk, NodesOk, Linked, AllNeeded, MainTops, GenesisOk, Drop, Dropped;
    DropOk(pool, f, r);
    DropIs(pool, f, r);
  }

  lemma DropRoot(pool: Pool, f: Forest, r: Hash, g: Forest, c: nat, n: Node)
    requires NodesOk(pool, f) && Dropped(pool, f, r, g) && OrphanRoot(pool, f, c, n) && n.hash != r
    ensures OrphanRoot(pool, g, c, n)
  {
    UnheldRoot(pool, f.held, n.hash);
  }

  lemma DropEntry(pool: Pool, f: Forest, g: Forest, c: nat, l: seq<Incomplete>, i: nat)
    requires NodesOk(pool, f) && OrphansListed(pool, f, c, l) && i < |l| && Dropped(pool, f, l[i].b.hash, g)
    ensures OrphansListed(pool, g, c, l[..i] + l[i + 1..])
  {
    hide NodesOk;
    var k, r := l[..i] + l[i + 1..], l[i].b.hash;
    assert forall j :: 0 <= j < |k| ==> k[j] == l[if j < i then j else j + 1];
    forall j | 0 <= j < |k| ensures OrphanRoot(pool, g, c, k[j].b) {
      var j' := if j < i then j else j + 1;
      ListHashes(pool, f, c, l, i, j');
      assert OrphanRoot(pool, f, c, l[j'].b);
      DropRoot(pool, f, r, g, c, l[j'].b);
    }
    hide OrphanRoot;
    forall q | q in g.shape && q in pool && pool[q].depth > 0 && pool[q].chain == c ensures Listed(k, q) {
      assert Listed(l, q);
      var j :| 0 <= j < |l| && l[j].b.hash == q;
      assert k[if j < i then j else j - 1].b.hash == q;
    }
  }

  lemma DropOrphans(pool: Pool, f: Forest, g: Forest, genesis: seq<Hash>, inchains: seq<seq<Incomplete>>, c: nat,
      i: nat)
    requires NodesOk(pool, f) && AllOrphansListed(pool, f, genesis, inchains) && c < |genesis| && c < |inchains|
    requires i < |inchains[c]|
    requires Dropped(pool, f, inchains[c][i].b.hash, g)
    ensures AllOrphansListed(pool, g, genesis, inchains[c := inchains[c][..i] + inchains[c][i + 1..]])
  {
    OrphanFacts(pool, f, genesis, inchains, c, i);
    OrphanChain(pool, f, c, inchains[c][i].b);
    hide NodesOk, OrphansListed, Dropped, OrphanRoot;
    DropEntry(pool, f, g, c, inchains[c], i);
    var after := inchains[c := inchains[c][..i] + inchains[c][i + 1..]];
    forall d | 0 <= d < |after| ensures OrphansListed(pool, g, d, after[d]) {
      if d != c {
      }
    }
  }

  // ---------- records ----------

  lemma DropEnds(pool: Pool, f: Forest, r: Hash, g: Forest, genesis: seq<Hash>, deepest: seq<Node>)
    requires Linked(pool) && NodesOk(pool, f) && Dropped(pool, f, r, g) && r in pool && pool[r].depth > 0
    requires EndsOk(pool, f, genesis, deepest)
    ensures EndsOk(pool, g, genesis, deepest)
  {
    InHeld(pool, f);
    assert g.held == Without(pool, f.held, r);
    forall c | 0 <= c < |deepest| ensures deepest[c] in g.nodes && IsDeepest(pool, g.held, c, deepest[c].hash) {
      EndStays(pool, f, r, g, c, deepest[c]);
    }
  }

  lemma EndStays(pool: Pool, f: Forest, r: Hash, g: Forest, c: nat, n: Node)
    requires Linked(pool) && HeldOk(pool, f.held) && Dropped(pool, f, r, g) && r in pool && pool[r].depth > 0
    requires n in f.nodes && IsDeepest(pool, f.held, c, n.hash) && g.held == Without(pool, f.held, r)
    ensures n in g.nodes && IsDeepest(pool, g.held, c, n.hash)
  {
    assert Root(pool, f.held, n.hash) != r;
    EvictKeepsDeepest(pool, f.held, r, c, n.hash);
  }

  ghost predicate MainSameAt(pool: Pool, f: Forest, g: Forest, h: Hash) {
    && (h in f.at && Anchored(pool, f.held, h) <==> h in g.at && Anchored(pool, g.held, h))
    && (h in f.at && Anchored(pool, f.held, h) ==> h in g.at && g.at[h] == f.at[h] && f.at[h] in f.nodes && f.at[h] in g.nodes)
  }

  /** Both forests have the same main trees. */
  ghost predicate MainSame(pool: Pool, f: Forest, g: Forest) {
    && (forall h :: h in f.at || h in g.at ==> MainSameAt(pool, f, g, h))
    && g.nodes <= f.nodes && (forall n :: n in f.nodes ==> n.hash in f.at && f.at[n.hash] == n)
    && (forall n :: n in g.nodes ==> n.hash in g.at && g.at[n.hash] == n)
    && (forall h :: h in f.at ==> f.at[h].hash == h) && (forall h :: h in g.at ==> g.at[h].hash == h)
  }

  lemma DropSame(pool: Pool, f: Forest, r: Hash, g: Forest)
    requires Linked(pool) && NodesOk(pool, f) && NodesOk(pool, g) && Dropped(pool, f, r, g) && r in pool
    requires pool[r].depth > 0
    ensures MainSame(pool, f, g)
  {
    forall h | h in f.at || h in g.at ensures MainSameAt(pool, f, g, h) {
      AnchoredAfter(pool, f, r, g, h);
    }
  }

  lemma SameFullAnchored(pool: Pool, f: Forest, g: Forest)
    requires MainSame(pool, f, g) && FullAnchored(pool, f.nodes, f.held)
    ensures FullAnchored(pool, g.nodes, g.held)
  {
    hide Anchored;
    forall n | n in g.nodes && n.isFull ensures Anchored(pool, g.held, n.hash) { assert MainSameAt(pool, f, g, n.hash); }
  }

  lemma SameIndex(pool: Pool, f: Forest, g: Forest, index: map<Hash, (nat, nat)>)
    requires MainSame(pool, f, g) && IndexExact(pool, f, index)
    ensures IndexExact(pool, g, index)
  {
    hide Anchored;
    forall x ensures ToFetch(pool, f, x) <==> ToFetch(pool, g, x) {
      if x in f.at || x in g.at { assert MainSameAt(pool, f, g, x); }
    }
  }

  lemma SameCommits(pool: Pool, f: Forest, g: Forest, log: seq<Hash>)
    requires MainSame(pool, f, g) && FullAnchored(pool, f.nodes, f.held) && CommitsOk(pool, f, log)
    ensures CommitsOk(pool, g, log)
  {
    hide Anchored, Distinct, IsCommitted;
    forall h | h in log ensures h in g.at && g.at[h] in g.nodes && g.at[h].isFull {
      assert f.at[h].hash == h && MainSameAt(pool, f, g, h);
    }
  }

  lemma SameFullBlocks(pool: Pool, f: Forest, g: Forest)
    requires MainSame(pool, f, g) && FullAnchored(pool, f.nodes, f.held) && FullAnchored(pool, g.nodes, g.held)
    ensures FullBlocks(g) == FullBlocks(f)
  {
    hide Anchored;
    forall h | h in f.at || h in g.at ensures h in FullBlocks(g) <==> h in FullBlocks(f) { assert MainSameAt(pool, f, g, h); }
  }

  lemma DropHeld(pool: Pool, f: Forest, r: Hash)
    ensures Drop(pool, f, r).held == Without(pool, f.held, r) && Drop(pool, f, r).nodes <= f.nodes
  {
  }

  /** Everything a node keeps, once entry i of the orphan list of chain c is given up. */
  lemma DropEverything(pool: Pool, f: Forest, genesis: seq<Hash>, chains: seq<Node>, inchains: seq<seq<Incomplete>>,
      deepest: seq<Node>,
      index: map<Hash, (nat, nat)>, log: seq<Hash>, c: nat, i: nat)
    requires TreesOk(pool, f, genesis, chains) && AllOrphansListed(pool, f, genesis, inchains) && LinksOk(pool, f)
    requires c < |genesis| && c < |inchains| && i < |inchains[c]|
    requires HeadersSet(pool, f.nodes, f.held) && FullAnchored(pool, f.nodes, f.held)
    requires EndsOk(pool, f, genesis, deepest)
    requires IndexExact(pool, f, index) && CommitsOk(pool, f, log)
    ensures forall j :: 0 <= j < i ==> inchains[c][j].b != inchains[c][i].b
    ensures var r := inchains[c][i].b.hash; var g := Drop(pool, f, r);
      && TreesOk(pool, g, genesis, chains) && LinksOk(pool, g)
      && AllOrphansListed(pool, g, genesis, inchains[c := inchains[c][..i] + inchains[c][i + 1..]])
      && HeadersSet(pool, g.nodes, g.held) && FullAnchored(pool, g.nodes, g.held) && EndsOk(pool, g, genesis, deepest)
      && IndexExact(pool, g, index) && CommitsOk(pool, g, log) && FullBlocks(g) == FullBlocks(f)
      && r in pool && pool[r].depth > 0 && r !in f.held && g.held == Without(pool, f.held, r) && g.nodes <= f.nodes
      && Needed(pool, f, r)
  {
    var r := inchains[c][i].b.hash;
    var g := Drop(pool, f, r);
    hide TreesOk, ForestOk, AllNeeded, NodesOk, LinksOk, AllOrphansListed, OrphansListed, OrphanRoot, Linked, Dropped;
    hide HeadersSet, FullAnchored;
    hide EndsOk, IndexExact, CommitsOk, FullBlocks, MainSame, Drop;
    OrphanFacts(pool, f, genesis, inchains, c, i);
    OrphanChain(pool, f, c, inchains[c][i].b);
    DropHeld(pool, f, r);
    DroppedTrees(pool, f, genesis, chains, r);
    TreesParts(pool, f, genesis, chains);
    TreesParts(pool, g, genesis, chains);
    DropLinks(pool, f, r, g);
    DropOrphans(pool, f, g, genesis, inchains, c, i);
    DropEnds(pool, f, r, g, genesis, deepest);
    DropSame(pool, f, r, g);
    SameFullAnchored(pool, f, g);
    SameIndex(pool, f, g, index);
    SameCommits(pool, f, g, log);
    SameFullBlocks(pool, f, g);
  }

  // ---------- a round of asking ----------

  /** The views of a node while it gives up orphan trees one after the other. */
  ghost predicate Evictions(pool: Pool, views: seq<NodeState>, roots: seq<Hash>) {
    |views| == |roots| + 1 && forall i :: 0 <= i < |roots| ==> Evicts(pool, views[i], roots[i], views[i + 1])
  }

  /** The difference of two 64-bit times. */
  function Elapsed(now: nat, since: nat): nat {
    (now - since) % 0x1_0000_0000_0000_0000
  }

  /** The index entries that have not been asked for lately. */
  ghost function DueKeys(index: map<Hash, (nat, nat)>, now: nat, wait: nat): set<Hash> {
    set h | h in index && Elapsed(now, index[h].1) > wait
  }

  lemma IsDueKey(index: map<Hash, (nat, nat)>, renewed: map<Hash, (nat, nat)>, nfb: seq<(Hash, nat)>, now: nat,
      wait: nat, h: Hash)
    requires Renewed(index, renewed, nfb, now) && h in index && !AskedIn(nfb, h)
    ensures h in renewed && renewed[h].0 == index[h].0
    ensures (h in DueKeys(index, now, wait) <==> Elapsed(now, renewed[h].1) > wait)
  {
    hide Elapsed;
  }

  /** The entries before those of `rest` have been looked at. */
  ghost predicate AskedSoFar(index: map<Hash, (nat, nat)>, renewed: map<Hash, (nat, nat)>, nfb: seq<(Hash, nat)>,
      rest: set<Hash>, now: nat, wait: nat) {
    && rest <= index.Keys && Renewed(index, renewed, nfb, now) && Asks(index, nfb, DueKeys(index, now, wait))
    && (forall i, x :: 0 <= i < |nfb| && x in rest ==> nfb[i].0 < x)
    && (forall x :: x in DueKeys(index, now, wait) && x !in rest ==> AskedIn(nfb, x))
  }

  lemma AskedNone(index: map<Hash, (nat, nat)>, now: nat, wait: nat)
    ensures AskedSoFar(index, index, [], index.Keys, now, wait)
  {
  }

  /** The smallest entry of the rest is the next to be looked at. */
  lemma AskedNext(index: map<Hash, (nat, nat)>, renewed: map<Hash, (nat, nat)>, nfb: seq<(Hash, nat)>, rest: set<Hash>,
      now: nat, wait: nat, h: Hash)
    requires AskedSoFar(index, renewed, nfb, rest, now, wait) && h in rest && forall x :: x in rest ==> h <= x
    ensures h in index && h in renewed && renewed[h].0 == index[h].0
    ensures if Elapsed(now, renewed[h].1) > wait
            then AskedSoFar(index, renewed[h := (index[h].0, now)], nfb + [(h, index[h].0)], rest - {h}, now, wait)
            else AskedSoFar(index, renewed, nfb, rest - {h}, now, wait)
  {
    hide Elapsed, Renewed, Asks, AskedIn, DueKeys;
    NotAskedYet(nfb, h);
    IsDueKey(index, renewed, nfb, now, wait, h);
    if h in DueKeys(index, now, wait) {
      AsksMore(index, nfb, DueKeys(index, now, wait), h, renewed, now);
    }
  }

  lemma AskedDone(index: map<Hash, (nat, nat)>, renewed: map<Hash, (nat, nat)>, nfb: seq<(Hash, nat)>, rest: set<Hash>,
      now: nat, wait: nat)
    requires AskedSoFar(index, renewed, nfb, rest, now, wait)
    ensures Renewed(index, renewed, nfb, now) && Asks(index, nfb, DueKeys(index, now, wait))
    ensures forall h :: h in DueKeys(index, now, wait) && !AskedIn(nfb, h) ==> h in rest && forall i :: 0 <= i < |nfb| ==> nfb[i].0 < h
  {
  }

  /** An index entry is due exactly if the wait is over; a request in the future counts as a very long wait. */
  lemma DueIs(index: map<Hash, (nat, nat)>, h: Hash, now: nat, wait: nat)
    requires h in index && now < 0x1_0000_0000_0000_0000 && index[h].1 < 0x1_0000_0000_0000_0000
    ensures index[h].1 <= now ==> (h in DueKeys(index, now, wait) <==> now - index[h].1 > wait)
    ensures index[h].1 > now ==> (h in DueKeys(index, now, wait) <==> now + 0x1_0000_0000_0000_0000 - index[h].1 > wait)
  {
    ElapsedIs(now, index[h].1);
  }

  /**
   * What a round does with an index entry whose request is not in the future: it is asked for only after the wait,
   * and left out after the wait only if the limit was reached by smaller blocks; only what is asked for is renewed.
   */
  ghost predicate FetchTreated(was: map<Hash, (nat, nat)>, index: map<Hash, (nat, nat)>, nfb: seq<(Hash, nat)>, h: Hash,
      now: nat, wait: nat, limit: nat) {
    h in was && was[h].1 <= now < 0x1_0000_0000_0000_0000 ==>
      && (AskedIn(nfb, h) ==> now - was[h].1 > wait)
      && (now - was[h].1 > wait && !AskedIn(nfb, h) ==> |nfb| >= limit && forall i :: 0 <= i < |nfb| ==> nfb[i].0 < h)
      && h in index && index[h] == (was[h].0, if AskedIn(nfb, h) then now else was[h].1)
  }

  lemma FetchRound(was: map<Hash, (nat, nat)>, index: map<Hash, (nat, nat)>, nfb: seq<(Hash, nat)>, now: nat, wait: nat, limit: nat)
    requires Renewed(was, index, nfb, now) && Asks(was, nfb, DueKeys(was, now, wait))
    requires forall h :: h in DueKeys(was, now, wait) && !AskedIn(nfb, h) ==>
      |nfb| >= limit && forall i :: 0 <= i < |nfb| ==> nfb[i].0 < h
    ensures forall h :: FetchTreated(was, index, nfb, h, now, wait, limit)
  {
    hide DueKeys;
    forall h ensures FetchTreated(was, index, nfb, h, now, wait, limit) {
      if h in was && was[h].1 <= now < 0x1_0000_0000_0000_0000 { DueIs(was, h, now, wait); }
    }
  }

  predicate IsDue(e: Incomplete, now: nat, wait: nat) {
    Elapsed(now, e.lastAsked) > wait
  }

  predicate IsGivenUp(e: Incomplete, now: nat, wait: nat, limit: nat) {
    IsDue(e, now, wait) && e.noAsks + 1 > limit
  }

  /** The entries that stay in the list, those that were due marked as asked once more. */
  function Kept(l: seq<Incomplete>, now: nat, wait: nat, limit: nat): seq<Incomplete> {
    if l == [] then []
    else
      var k, e := Kept(l[..|l| - 1], now, wait, limit), l[|l| - 1];
      if IsGivenUp(e, now, wait, limit) then k
      else k + [if IsDue(e, now, wait) then e.(lastAsked := now, noAsks := e.noAsks + 1) else e]
  }

  /** The blocks to ask for, in list order. */
  function AskedFor(l: seq<Incomplete>, now: nat, wait: nat, limit: nat): seq<Hash> {
    if l == [] then []
    else
      var k, e := AskedFor(l[..|l| - 1], now, wait, limit), l[|l| - 1];
      if IsDue(e, now, wait) && !IsGivenUp(e, now, wait, limit) then k + [e.b.hash] else k
  }

  /** The roots of the trees given up. */
  function GivenUp(l: seq<Incomplete>, now: nat, wait: nat, limit: nat): set<Hash> {
    set e | e in l && IsGivenUp(e, now, wait, limit) :: e.b.hash
  }

  /** The milliseconds since an entry was asked for; a clock that was set back counts as a very long wait. */
  lemma ElapsedIs(now: nat, since: nat)
    requires now < 0x1_0000_0000_0000_0000 && since < 0x1_0000_0000_0000_0000
    ensures Elapsed(now, since) == if since <= now then now - since else now + 0x1_0000_0000_0000_0000 - since
  {
  }

  /** No two entries wait for the same block. */
  ghost predicate RootsDiffer(l: seq<Incomplete>) {
    forall i, j :: 0 <= i < j < |l| ==> l[i].b.hash != l[j].b.hash
  }

  ghost predicate KeptAs(l: seq<Incomplete>, e: Incomplete) {
    exists j :: 0 <= j < |l| && l[j] == e
  }

  /** What a round of asking does with one entry of the list. */
  lemma {:induction false} AskingEntry(l: seq<Incomplete>, i: nat, now: nat, wait: nat, limit: nat)
    requires RootsDiffer(l) && i < |l|
    ensures l[i].b.hash in AskedFor(l, now, wait, limit) <==> Elapsed(now, l[i].lastAsked) > wait && l[i].noAsks < limit
    ensures forall e :: KeptAs(Kept(l, now, wait, limit), e) && e.b == l[i].b ==>
      e == if Elapsed(now, l[i].lastAsked) > wait then Incomplete(l[i].b, now, l[i].noAsks + 1) else l[i]
    ensures Elapsed(now, l[i].lastAsked) > wait && l[i].noAsks >= limit ==>
      forall e :: KeptAs(Kept(l, now, wait, limit), e) ==> e.b != l[i].b
    ensures !(Elapsed(now, l[i].lastAsked) > wait && l[i].noAsks >= limit) ==>
      KeptAs(Kept(l, now, wait, limit), if Elapsed(now, l[i].lastAsked) > wait then Incomplete(l[i].b, now, l[i].noAsks + 1) else l[i])
    decreases |l|
  {
    hide Elapsed;
    var n := |l| - 1;
    KeptSteps(l, now, wait, limit);
    KeptFromList(l[..n], now, wait, limit);
    if i < n {
      assert l[..n][i] == l[i];
      AskingEntry(l[..n], i, now, wait, limit);
    }
  }

  /** The last entry of the list. */
  lemma KeptSteps(l: seq<Incomplete>, now: nat, wait: nat, limit: nat)
    requires l != []
    ensures var n := |l| - 1; var e := l[n];
      var e' := if Elapsed(now, e.lastAsked) > wait then Incomplete(e.b, now, e.noAsks + 1) else e;
      var was, gone := Kept(l[..n], now, wait, limit), Elapsed(now, e.lastAsked) > wait && e.noAsks >= limit;
      && (forall x :: KeptAs(Kept(l, now, wait, limit), x) <==> KeptAs(was, x) || (!gone && x == e'))
      && (forall h :: h in AskedFor(l, now, wait, limit) <==>
            h in AskedFor(l[..n], now, wait, limit) || (h == e.b.hash && Elapsed(now, e.lastAsked) > wait && e.noAsks < limit))
  {
    hide Elapsed;
    var n := |l| - 1;
    var k, was := Kept(l, now, wait, limit), Kept(l[..n], now, wait, limit);
    forall x | KeptAs(was, x) ensures KeptAs(k, x) {
      var j :| 0 <= j < |was| && was[j] == x;
      assert k[j] == x;
    }
    if |k| > |was| { assert k[|was|] == k[|k| - 1]; }
  }

  lemma RootsOfList(pool: Pool, f: Forest, c: nat, l: seq<Incomplete>)
    requires NodesOk(pool, f) && OrphansListed(pool, f, c, l)
    ensures RootsDiffer(l)
  {
    forall i, j | 0 <= i < j < |l| ensures l[i].b.hash != l[j].b.hash {
      assert OrphanRoot(pool, f, c, l[i].b) && OrphanRoot(pool, f, c, l[j].b) && l[i].b != l[j].b;
    }
  }

  /** The same for all entries of the list, in terms of the clock. */
  lemma AskingRound(l: seq<Incomplete>, now: nat, wait: nat, limit: nat, asked: seq<Hash>, kept: seq<Incomplete>, i: nat)
    requires RootsDiffer(l) && asked == AskedFor(l, now, wait, limit) && kept == Kept(l, now, wait, limit) && i < |l|
    requires l[i].lastAsked <= now < 0x1_0000_0000_0000_0000
    ensures l[i].b.hash in asked <==> now - l[i].lastAsked > wait && l[i].noAsks < limit
    ensures (exists e :: e in kept && e.b == l[i].b) <==> !(now - l[i].lastAsked > wait && l[i].noAsks >= limit)
    ensures forall e :: e in kept && e.b == l[i].b ==>
      e == if now - l[i].lastAsked > wait then Incomplete(l[i].b, now, l[i].noAsks + 1) else l[i]
    ensures l[i].b.hash in GivenUp(l, now, wait, limit) <==> now - l[i].lastAsked > wait && l[i].noAsks >= limit
  {
    ElapsedIs(now, l[i].lastAsked);
    AskingEntry(l, i, now, wait, limit);
    hide Elapsed, Kept, AskedFor;
    forall e ensures e in kept <==> KeptAs(kept, e) {
      if e in kept {
        var j :| 0 <= j < |kept| && kept[j] == e;
      }
    }
    if l[i].b.hash in GivenUp(l, now, wait, limit) {
      var e :| e in l && IsGivenUp(e, now, wait, limit) && e.b.hash == l[i].b.hash;
      var j :| 0 <= j < |l| && l[j] == e;
      assert j == i;
    }
    var stays := if now - l[i].lastAsked > wait then Incomplete(l[i].b, now, l[i].noAsks + 1) else l[i];
    if !(now - l[i].lastAsked > wait && l[i].noAsks >= limit) { assert stays in kept && stays.b == l[i].b; }
    if now - l[i].lastAsked > wait && l[i].noAsks >= limit {
      assert l[i] in l && IsGivenUp(l[i], now, wait, limit);
      forall e | e in kept ensures e.b != l[i].b { assert KeptAs(kept, e); }
    }
  }

  /**
   * An entry whose request is not in the future: its root is asked for exactly if the wait is over and the limit is
   * not reached, it goes exactly if the limit is reached, and if it stays it is counted exactly if it was due.
   */
  ghost predicate Treated(e: Incomplete, asked: seq<Hash>, kept: seq<Incomplete>, now: nat, wait: nat, limit: nat) {
    e.lastAsked <= now < 0x1_0000_0000_0000_0000 ==>
      && (e.b.hash in asked <==> now - e.lastAsked > wait && e.noAsks < limit)
      && ((exists k :: k in kept && k.b == e.b) <==> !(now - e.lastAsked > wait && e.noAsks >= limit))
      && (forall k :: k in kept && k.b == e.b ==> k == if now - e.lastAsked > wait then Incomplete(e.b, now, e.noAsks + 1) else e)
  }

  lemma AllTreated(l: seq<Incomplete>, now: nat, wait: nat, limit: nat, asked: seq<Hash>, kept: seq<Incomplete>)
    requires RootsDiffer(l) && asked == AskedFor(l, now, wait, limit) && kept == Kept(l, now, wait, limit)
    ensures forall i :: 0 <= i < |l| ==> Treated(l[i], asked, kept, now, wait, limit)
  {
    hide RootsDiffer, AskedFor, Kept, GivenUp;
    forall i | 0 <= i < |l| ensures Treated(l[i], asked, kept, now, wait, limit) {
      if l[i].lastAsked <= now < 0x1_0000_0000_0000_0000 { AskingRound(l, now, wait, limit, asked, kept, i); }
    }
  }

  /** An entry asked for at a later time than now counts as due, unless the waiting time is nearly 2^64. */
  lemma AskingWraps(l: seq<Incomplete>, now: nat, wait: nat, limit: nat, i: nat)
    requires RootsDiffer(l) && i < |l| && now < l[i].lastAsked < 0x1_0000_0000_0000_0000
    ensures l[i].b.hash in AskedFor(l, now, wait, limit) <==>
            now + 0x1_0000_0000_0000_0000 - l[i].lastAsked > wait && l[i].noAsks < limit
  {
    ElapsedIs(now, l[i].lastAsked);
    AskingEntry(l, i, now, wait, limit);
  }

  ghost predicate Precedes(l: seq<Incomplete>, g: Hash, h: Hash) {
    exists i, j :: 0 <= i < j < |l| && l[i].b.hash == g && l[j].b.hash == h
  }

  /** The hashes come in list order, each once for an entry. */
  ghost predicate InListOrder(l: seq<Incomplete>, hs: seq<Hash>) {
    forall a, b :: 0 <= a < b < |hs| ==> Precedes(l, hs[a], hs[b])
  }

  function RootHashes(l: seq<Incomplete>): seq<Hash> {
    seq(|l|, i requires 0 <= i < |l| => l[i].b.hash)
  }

  lemma OrderMore(l: seq<Incomplete>, hs: seq<Hash>, more: seq<Hash>)
    requires l != [] && InListOrder(l[..|l| - 1], hs) && (more == hs || more == hs + [l[|l| - 1].b.hash])
    requires forall a :: 0 <= a < |hs| ==> exists i :: 0 <= i < |l| - 1 && l[i].b.hash == hs[a]
    ensures InListOrder(l, more)
  {
    var n := |l| - 1;
    forall a, b | 0 <= a < b < |more| ensures Precedes(l, more[a], more[b]) {
      if b < |hs| {
        assert Precedes(l[..n], hs[a], hs[b]);
        var i, j :| 0 <= i < j < n && l[..n][i].b.hash == hs[a] && l[..n][j].b.hash == hs[b];
        assert l[i].b.hash == hs[a] && l[j].b.hash == hs[b];
      } else {
        var i :| 0 <= i < n && l[i].b.hash == hs[a];
        assert l[n].b.hash == more[b];
      }
    }
  }

  /** A round of asking keeps the order of the list. */
  lemma {:induction false} AskingKeepsOrder(l: seq<Incomplete>, now: nat, wait: nat, limit: nat)
    ensures InListOrder(l, AskedFor(l, now, wait, limit)) && InListOrder(l, RootHashes(Kept(l, now, wait, limit)))
    decreases |l|
  {
    if l != [] {
      var n := |l| - 1;
      var was, hs := RootHashes(Kept(l[..n], now, wait, limit)), AskedFor(l[..n], now, wait, limit);
      AskingKeepsOrder(l[..n], now, wait, limit);
      KeptFromList(l[..n], now, wait, limit);
      forall a | 0 <= a < |was| ensures exists i :: 0 <= i < n && l[i].b.hash == was[a] {
        assert KeptAs(Kept(l[..n], now, wait, limit), Kept(l[..n], now, wait, limit)[a]);
        var i :| 0 <= i < n && l[..n][i].b == Kept(l[..n], now, wait, limit)[a].b;
        assert l[i].b.hash == was[a];
      }
      forall a | 0 <= a < |hs| ensures exists i :: 0 <= i < n && l[i].b.hash == hs[a] {
        assert hs[a] in hs;
        var i :| 0 <= i < n && l[..n][i].b.hash == hs[a];
        assert l[i].b.hash == hs[a];
      }
      hide InListOrder;
      OrderMore(l, hs, AskedFor(l, now, wait, limit));
      OrderMore(l, was, RootHashes(Kept(l, now, wait, limit)));
    }
  }

  /** Roots that are asked for or stay are roots of the list. */
  lemma {:induction false} KeptFromList(l: seq<Incomplete>, now: nat, wait: nat, limit: nat)
    ensures forall h :: h in AskedFor(l, now, wait, limit) ==> exists i :: 0 <= i < |l| && l[i].b.hash == h
    ensures forall e :: KeptAs(Kept(l, now, wait, limit), e) ==> exists i :: 0 <= i < |l| && l[i].b == e.b
    decreases |l|
  {
    if l != [] {
      var n := |l| - 1;
      KeptSteps(l, now, wait, limit);
      KeptFromList(l[..n], now, wait, limit);
      hide Elapsed, Kept, AskedFor;
      forall h | h in AskedFor(l, now, wait, limit) ensures exists i :: 0 <= i < |l| && l[i].b.hash == h {
        if h in AskedFor(l[..n], now, wait, limit) {
          var i :| 0 <= i < n && l[..n][i].b.hash == h;
          assert l[i].b.hash == h;
        } else {
          assert l[n].b.hash == h;
        }
      }
      forall e | KeptAs(Kept(l, now, wait, limit), e) ensures exists i :: 0 <= i < |l| && l[i].b == e.b {
        if KeptAs(Kept(l[..n], now, wait, limit), e) {
          var i :| 0 <= i < n && l[..n][i].b == e.b;
          assert l[i].b == e.b;
        } else {
          assert l[n].b == e.b;
        }
      }
    }
  }

  /** The held headers outside the trees rooted in `roots`. */
  ghost function Outside(pool: Pool, held: set<Hash>, roots: set<Hash>): set<Hash> {
    set h | h in held && Root(pool, held, h) !in roots
  }

  lemma {:induction false} RootOutside(pool: Pool, held: set<Hash>, roots: set<Hash>, h: Hash)
    requires Linked(pool) && h in pool && Root(pool, held, h) !in roots
    ensures Root(pool, Outside(pool, held, roots), h) == Root(pool, held, h)
    decreases Depth(pool, h)
  {
    if h in held && HasParent(pool, h) {
      RootOutside(pool, held, roots, pool[h].parent);
    }
  }

  /** Giving up one tree after others. */
  lemma OutsideMore(pool: Pool, held: set<Hash>, roots: set<Hash>, r: Hash)
    requires Linked(pool) && HeldOk(pool, held)
    ensures Without(pool, Outside(pool, held, roots), r) == Outside(pool, held, roots + {r})
  {
    hide Root, Linked;
    forall h | h in Outside(pool, held, roots) ensures Root(pool, Outside(pool, held, roots), h) == Root(pool, held, h) {
      RootOutside(pool, held, roots, h);
    }
  }

  /** The orphan list when the first i entries have been looked at. */
  function Midway(l: seq<Incomplete>, i: nat, now: nat, wait: nat, limit: nat): seq<Incomplete>
    requires i <= |l|
  {
    Kept(l[..i], now, wait, limit) + l[i..]
  }

  lemma MidwayNext(l: seq<Incomplete>, i: nat, now: nat, wait: nat, limit: nat)
    requires i < |l|
    ensures var k, m := |Kept(l[..i], now, wait, limit)|, Midway(l, i, now, wait, limit);
      && k < |m| && m[k] == l[i]
      && (if IsGivenUp(l[i], now, wait, limit) then
            Midway(l, i + 1, now, wait, limit) == m[..k] + m[k + 1..] && |Kept(l[..i + 1], now, wait, limit)| == k
          else
            && Midway(l, i + 1, now, wait, limit)
               == (if IsDue(l[i], now, wait) then m[k := l[i].(lastAsked := now, noAsks := l[i].noAsks + 1)] else m)
            && |Kept(l[..i + 1], now, wait, limit)| == k + 1)
    ensures AskedFor(l[..i + 1], now, wait, limit)
         == AskedFor(l[..i], now, wait, limit) + if IsDue(l[i], now, wait) && !IsGivenUp(l[i], now, wait, limit) then [l[i].b.hash] else []
    ensures GivenUp(l[..i + 1], now, wait, limit)
         == if IsGivenUp(l[i], now, wait, limit)
            then GivenUp(l[..i], now, wait, limit) + {l[i].b.hash}
            else GivenUp(l[..i], now, wait, limit)
  {
    hide Elapsed, IsDue, IsGivenUp;
    assert l[..i + 1][..i] == l[..i] && l[..i + 1] == l[..i] + [l[i]];
    assert l[i..] == [l[i]] + l[i + 1..];
  }

  /** An entry may change its times. */
  lemma Touched(pool: Pool, f: Forest, genesis: seq<Hash>, inchains: seq<seq<Incomplete>>, c: nat, k: nat,
      e: Incomplete)
    requires AllOrphansListed(pool, f, genesis, inchains) && c < |inchains| && k < |inchains[c]|
    requires e.b == inchains[c][k].b
    ensures AllOrphansListed(pool, f, genesis, inchains[c := inchains[c][k := e]])
  {
    var l := inchains[c][k := e];
    forall r | Listed(inchains[c], r) ensures Listed(l, r) {
      var j :| 0 <= j < |inchains[c]| && inchains[c][j].b.hash == r;
      assert l[j].b.hash == r;
    }
    hide OrphanRoot, Listed;
    assert OrphansListed(pool, f, c, inchains[c]);
    assert OrphansListed(pool, f, c, l);
  }

  lemma MidwayNone(pool: Pool, held: set<Hash>, l: seq<Incomplete>, now: nat, wait: nat, limit: nat)
    ensures Kept(l[..0], now, wait, limit) == [] && Midway(l, 0, now, wait, limit) == l
    ensures AskedFor(l[..0], now, wait, limit) == []
    ensures Outside(pool, held, GivenUp(l[..0], now, wait, limit)) == held
  {
  }

  lemma MidwayAll(l: seq<Incomplete>, i: nat, now: nat, wait: nat, limit: nat)
    requires i <= |l| && |Kept(l[..i], now, wait, limit)| >= |Midway(l, i, now, wait, limit)|
    ensures l[..i] == l && Midway(l, i, now, wait, limit) == Kept(l, now, wait, limit)
  {
  }

  lemma MidwayRest(l: seq<Incomplete>, i: nat, now: nat, wait: nat, limit: nat)
    requires i <= |l| && |Kept(l[..i], now, wait, limit)| < |Midway(l, i, now, wait, limit)|
    ensures i < |l|
  {
  }
}
