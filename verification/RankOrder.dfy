/**
 * Which blocks OHIE confirms, and their order by rank.
 *
 * A node drops the last T blocks of every chain, takes the smallest `nextRank` of the blocks the remaining
 * (partial) chains end in as its bar, and confirms the blocks of the partial chains below the bar.  This
 * module proves what that rule is for: listed by (next rank, chain), what two nodes with agreeing partial chains
 * confirm is the same, up to one of them being ahead.  No node makes this list; the order in which blocks reach
 * commit_block is a different one (see CommitOrder).
 */
module RankOrder {
  import opened Prelude
  import opened Headers

  /** What mining guarantees about ranks: they climb along every parent link, and fit the 32-bit field. */
  ghost predicate Ranked(pool: Pool) {
    && (forall h :: h in pool && pool[h].depth > 0 && pool[h].parent in pool ==>
          pool[pool[h].parent].nextRank == pool[h].rank < pool[h].nextRank)
    && (forall h :: h in pool ==> pool[h].nextRank < U32)
  }

  /** One block per chain: the ends of a node's longest chains. */
  ghost predicate TipsOk(pool: Pool, tips: seq<Hash>) {
    forall c :: 0 <= c < |tips| ==> tips[c] in pool && pool[tips[c]].chain == c
  }

  /** The chain ending in `tip` without its last `t` blocks; empty when the walk up runs off the genesis block. */
  function Partial(pool: Pool, tip: Hash, t: nat): seq<Hash> {
    var p := Path(pool, tip);
    if |p| > t then p[..|p| - t] else []
  }

  /** No chain is too short to have a partial chain. */
  ghost predicate Deep(pool: Pool, tips: seq<Hash>, t: nat) {
    forall c :: 0 <= c < |tips| ==> Partial(pool, tips[c], t) != []
  }

  function NextRank(pool: Pool, h: Hash): nat {
    if h in pool then pool[h].nextRank else 0
  }

  function Last(p: seq<Hash>): Hash
    requires p != []
  {
    p[|p| - 1]
  }

  /** The next rank at the end of a chain's partial chain. */
  function EndRank(pool: Pool, tip: Hash, t: nat): nat {
    var p := Partial(pool, tip, t);
    if p == [] then 0 else NextRank(pool, Last(p))
  }

  /** The minimum over the partial ends, starting from the largest 32-bit number. */
  function Bar(pool: Pool, tips: seq<Hash>, t: nat): nat {
    if tips == [] then U32 - 1
    else
      var rest := Bar(pool, tips[..|tips| - 1], t);
      var tip := tips[|tips| - 1];
      if Partial(pool, tip, t) != [] && EndRank(pool, tip, t) < rest then EndRank(pool, tip, t) else rest
  }

  /** The blocks a commit pass may confirm. */
  ghost function Eligible(pool: Pool, tips: seq<Hash>, t: nat): set<Hash> {
    set c, h | 0 <= c < |tips| && h in Partial(pool, tips[c], t) && NextRank(pool, h) < Bar(pool, tips, t) :: h
  }

  /** The order of the listing: by next rank, ties between chains by chain number. */
  predicate Before(pool: Pool, a: Hash, b: Hash)
    requires a in pool && b in pool
  {
    pool[a].nextRank < pool[b].nextRank || (pool[a].nextRank == pool[b].nextRank && pool[a].chain < pool[b].chain)
  }

  /** `s` lists exactly the blocks of `blocks`, in this order. */
  ghost predicate Lists(pool: Pool, s: seq<Hash>, blocks: set<Hash>) {
    && (forall i :: 0 <= i < |s| ==> s[i] in pool)
    && (forall i, j :: 0 <= i < j < |s| ==> Before(pool, s[i], s[j]))
    && (forall h :: h in s <==> h in blocks)
  }

  // ---------- ranks along a path ----------

  lemma {:induction false} RanksClimb(pool: Pool, h: Hash, i: nat, j: nat)
    requires Linked(pool) && Ranked(pool) && h in pool
    requires i < j < |Path(pool, h)|
    ensures NextRank(pool, Path(pool, h)[i]) < NextRank(pool, Path(pool, h)[j])
    decreases j
  {
    var p := Path(pool, h);
    PathShape(pool, h);
    var a := p[j];
    assert pool[a].depth == j;
    PathParent(pool, a);
    PathShape(pool, pool[a].parent);
    assert p[..j + 1] == Path(pool, a);
    assert p[..j] == Path(pool, pool[a].parent);
    assert pool[a].parent == p[j - 1];
    if i < j - 1 {
      RanksClimb(pool, h, i, j - 1);
    }
  }

  lemma PartialMember(pool: Pool, tip: Hash, t: nat, i: nat)
    requires Linked(pool) && tip in pool && i < |Partial(pool, tip, t)|
    ensures i < |Path(pool, tip)| && Partial(pool, tip, t)[i] == Path(pool, tip)[i] && Path(pool, tip)[i] in pool
    ensures pool[Path(pool, tip)[i]].chain == pool[tip].chain && pool[Path(pool, tip)[i]].depth == i
  {
    PathShape(pool, tip);
  }

  lemma PartialClimbs(pool: Pool, tip: Hash, t: nat, i: nat, j: nat)
    requires Linked(pool) && Ranked(pool) && tip in pool
    requires i < j < |Partial(pool, tip, t)|
    ensures NextRank(pool, Partial(pool, tip, t)[i]) < NextRank(pool, Partial(pool, tip, t)[j])
  {
    PartialMember(pool, tip, t, i);
    PartialMember(pool, tip, t, j);
    RanksClimb(pool, tip, i, j);
  }

  // ---------- the bar ----------

  /** The bar is below every partial end. */
  lemma {:induction false} BarIsLow(pool: Pool, tips: seq<Hash>, t: nat, c: nat)
    requires c < |tips| && Partial(pool, tips[c], t) != []
    ensures Bar(pool, tips, t) <= EndRank(pool, tips[c], t)
  {
    if c < |tips| - 1 {
      assert tips[..|tips| - 1][c] == tips[c];
      BarIsLow(pool, tips[..|tips| - 1], t, c);
    }
  }

  /** Unless it is the initial value, the bar is one of the partial ends. */
  lemma {:induction false} BarIsReached(pool: Pool, tips: seq<Hash>, t: nat) returns (c: nat)
    ensures Bar(pool, tips, t) <= U32 - 1
    ensures Bar(pool, tips, t) == U32 - 1 ||
            (c < |tips| && Partial(pool, tips[c], t) != [] && Bar(pool, tips, t) == EndRank(pool, tips[c], t))
  {
    c := 0;
    if tips != [] {
      c := BarIsReached(pool, tips[..|tips| - 1], t);
      if Bar(pool, tips, t) != Bar(pool, tips[..|tips| - 1], t) {
        c := |tips| - 1;
      }
    }
  }

  // ---------- two views that agree ----------

  /** The premise of agreement: on every chain one view's partial chain is a prefix of the other's. */
  ghost predicate Agreeing(pool: Pool, a: seq<Hash>, b: seq<Hash>, t: nat) {
    |a| == |b| && forall c :: 0 <= c < |a| ==> Comparable(Partial(pool, a[c], t), Partial(pool, b[c], t))
  }

  ghost predicate Ready(pool: Pool, tips: seq<Hash>, t: nat) {
    TipsOk(pool, tips) && Deep(pool, tips, t)
  }

  /** A block below both bars is on both partial chains or on none. */
  lemma SharedBelowBars(pool: Pool, a: seq<Hash>, b: seq<Hash>, t: nat, c: nat, h: Hash)
    requires Linked(pool) && Ranked(pool) && Ready(pool, a, t) && Ready(pool, b, t) && Agreeing(pool, a, b, t)
    requires c < |a| && h in Partial(pool, a[c], t) && NextRank(pool, h) < Bar(pool, b, t)
    ensures h in Partial(pool, b[c], t)
  {
    var p, q := Partial(pool, a[c], t), Partial(pool, b[c], t);
    var i :| 0 <= i < |p| && p[i] == h;
    assert Comparable(p, q);
    if p <= q {
      assert q[i] == h;
    } else if i < |q| {
      assert q[i] == h;
    } else {
      BarIsLow(pool, b, t, c);
      assert Last(q) == p[|q| - 1];
      PartialClimbs(pool, a[c], t, |q| - 1, i);
    }
  }

  lemma EligibleWithin(pool: Pool, a: seq<Hash>, b: seq<Hash>, t: nat, h: Hash)
    requires Linked(pool) && Ranked(pool) && Ready(pool, a, t) && Ready(pool, b, t) && Agreeing(pool, a, b, t)
    requires h in Eligible(pool, a, t) && NextRank(pool, h) < Bar(pool, b, t)
    ensures h in Eligible(pool, b, t)
  {
    var c :| 0 <= c < |a| && h in Partial(pool, a[c], t);
    SharedBelowBars(pool, a, b, t, c, h);
  }

  // ---------- listings ----------

  /** Eligible blocks are distinguished by (next rank, chain), so they can be listed in order. */
  lemma KeysDiffer(pool: Pool, tips: seq<Hash>, t: nat, g: Hash, h: Hash)
    requires Linked(pool) && Ranked(pool) && Ready(pool, tips, t)
    requires g in Eligible(pool, tips, t) && h in Eligible(pool, tips, t) && g != h
    ensures g in pool && h in pool && (Before(pool, g, h) || Before(pool, h, g))
  {
    var c :| 0 <= c < |tips| && g in Partial(pool, tips[c], t);
    var d :| 0 <= d < |tips| && h in Partial(pool, tips[d], t);
    var i :| 0 <= i < |Partial(pool, tips[c], t)| && Partial(pool, tips[c], t)[i] == g;
    var j :| 0 <= j < |Partial(pool, tips[d], t)| && Partial(pool, tips[d], t)[j] == h;
    PartialMember(pool, tips[c], t, i);
    PartialMember(pool, tips[d], t, j);
    if c == d {
      if i < j { PartialClimbs(pool, tips[c], t, i, j); } else { PartialClimbs(pool, tips[c], t, j, i); }
    }
  }

  ghost predicate Distinguished(pool: Pool, blocks: set<Hash>) {
    && (forall h :: h in blocks ==> h in pool)
    && (forall g, h :: g in blocks && h in blocks && g != h ==> Before(pool, g, h) || Before(pool, h, g))
  }

  /** The first block of a non-empty set in this order. */
  lemma {:induction false} FirstOf(pool: Pool, blocks: set<Hash>) returns (m: Hash)
    requires Distinguished(pool, blocks) && blocks != {}
    ensures m in blocks && forall h :: h in blocks && h != m ==> Before(pool, m, h)
    decreases blocks
  {
    var x :| x in blocks;
    m := x;
    if blocks != {x} {
      var n := FirstOf(pool, blocks - {x});
      assert n in blocks && n != x;
      m := if Before(pool, n, x) then n else x;
      assert forall h :: h in blocks && h != m ==> h == x || h == n || h in blocks - {x};
    }
  }

  /** Every distinguished set has a listing. */
  lemma {:induction false} ListingExists(pool: Pool, blocks: set<Hash>) returns (s: seq<Hash>)
    requires Distinguished(pool, blocks)
    ensures Lists(pool, s, blocks)
    decreases blocks
  {
    if blocks == {} {
      s := [];
    } else {
      var m := FirstOf(pool, blocks);
      var rest := ListingExists(pool, blocks - {m});
      s := [m] + rest;
      forall h ensures h in s <==> h in blocks {
        assert h in s <==> h == m || h in rest;
      }
    }
  }

  /** The eligible blocks of a view can be listed. */
  lemma OrderExists(pool: Pool, tips: seq<Hash>, t: nat) returns (s: seq<Hash>)
    requires Linked(pool) && Ranked(pool) && Ready(pool, tips, t)
    ensures Lists(pool, s, Eligible(pool, tips, t))
  {
    forall h | h in Eligible(pool, tips, t) ensures h in pool {
      var c :| 0 <= c < |tips| && h in Partial(pool, tips[c], t);
      var i :| 0 <= i < |Partial(pool, tips[c], t)| && Partial(pool, tips[c], t)[i] == h;
      PartialMember(pool, tips[c], t, i);
    }
    forall g, h | g in Eligible(pool, tips, t) && h in Eligible(pool, tips, t) && g != h
      ensures Before(pool, g, h) || Before(pool, h, g)
    {
      KeysDiffer(pool, tips, t, g, h);
    }
    s := ListingExists(pool, Eligible(pool, tips, t));
  }

  /** A listing of a set that only gains later blocks is extended at its end. */
  lemma {:induction false} ListingExtends(pool: Pool, s: seq<Hash>, small: set<Hash>, l: seq<Hash>, large: set<Hash>)
    requires Lists(pool, s, small) && Lists(pool, l, large)
    requires forall h :: h in small ==> h in large
    requires forall g, h :: g in small && h in large && h !in small && g in pool && h in pool ==> Before(pool, g, h)
    ensures s <= l
    decreases |s|
  {
    if s != [] {
      SameFirst(pool, s, small, l, large);
      ListingExtends(pool, s[1..], small - {s[0]}, l[1..], large - {s[0]});
    }
  }

  lemma SameFirst(pool: Pool, s: seq<Hash>, small: set<Hash>, l: seq<Hash>, large: set<Hash>)
    requires Lists(pool, s, small) && Lists(pool, l, large) && s != []
    requires forall h :: h in small ==> h in large
    requires forall g, h :: g in small && h in large && h !in small && g in pool && h in pool ==> Before(pool, g, h)
    ensures l != [] && l[0] == s[0]
  {
    assert s[0] in s;
    assert s[0] in l;
    var k :| 0 <= k < |l| && l[k] == s[0];
    assert l[0] in l;
    assert l[0] in small ==> l[0] in s;
    assert k > 0 ==> Before(pool, l[0], s[0]);
    assert l[0] !in small ==> Before(pool, s[0], l[0]);
  }

  // ---------- the theorems ----------

  /** With the lower bar, a view confirms exactly what the other confirms below that bar. */
  lemma LowerBarDecides(pool: Pool, a: seq<Hash>, b: seq<Hash>, t: nat)
    requires Linked(pool) && Ranked(pool) && Ready(pool, a, t) && Ready(pool, b, t) && Agreeing(pool, a, b, t)
    requires Bar(pool, a, t) <= Bar(pool, b, t)
    ensures forall h :: h in Eligible(pool, a, t) <==> h in Eligible(pool, b, t) && NextRank(pool, h) < Bar(pool, a, t)
  {
    forall h ensures h in Eligible(pool, a, t) <==> h in Eligible(pool, b, t) && NextRank(pool, h) < Bar(pool, a, t) {
      if h in Eligible(pool, a, t) { EligibleWithin(pool, a, b, t, h); }
      if h in Eligible(pool, b, t) && NextRank(pool, h) < Bar(pool, a, t) { EligibleWithin(pool, b, a, t, h); }
    }
  }

  /** Agreement, for the view with the lower bar: its listing is a prefix of the other's. */
  lemma LowerBarIsPrefix(pool: Pool, a: seq<Hash>, b: seq<Hash>, t: nat, s: seq<Hash>, l: seq<Hash>)
    requires Linked(pool) && Ranked(pool) && Ready(pool, a, t) && Ready(pool, b, t) && Agreeing(pool, a, b, t)
    requires Bar(pool, a, t) <= Bar(pool, b, t)
    requires Lists(pool, s, Eligible(pool, a, t)) && Lists(pool, l, Eligible(pool, b, t))
    ensures s <= l
  {
    LowerBarDecides(pool, a, b, t);
    ListingExtends(pool, s, Eligible(pool, a, t), l, Eligible(pool, b, t));
  }

  /** Agreement: the listings of two agreeing views are prefixes of one another. */
  lemma Agreement(pool: Pool, a: seq<Hash>, b: seq<Hash>, t: nat, s: seq<Hash>, l: seq<Hash>)
    requires Linked(pool) && Ranked(pool) && Ready(pool, a, t) && Ready(pool, b, t) && Agreeing(pool, a, b, t)
    requires Lists(pool, s, Eligible(pool, a, t)) && Lists(pool, l, Eligible(pool, b, t))
    ensures Comparable(s, l)
  {
    if Bar(pool, a, t) <= Bar(pool, b, t) {
      LowerBarIsPrefix(pool, a, b, t, s, l);
    } else {
      LowerBarIsPrefix(pool, b, a, t, l, s);
    }
  }

  /** Every partial chain of the later view extends the earlier one. */
  ghost predicate Grows(pool: Pool, a: seq<Hash>, b: seq<Hash>, t: nat) {
    |a| == |b| && forall c :: 0 <= c < |a| ==> Partial(pool, a[c], t) <= Partial(pool, b[c], t)
  }

  lemma EndGrows(pool: Pool, x: Hash, y: Hash, t: nat)
    requires Linked(pool) && Ranked(pool) && x in pool && y in pool
    requires Partial(pool, x, t) != [] && Partial(pool, x, t) <= Partial(pool, y, t)
    ensures EndRank(pool, x, t) <= EndRank(pool, y, t)
  {
    var p, q := Partial(pool, x, t), Partial(pool, y, t);
    assert Last(p) == q[|p| - 1];
    if |p| < |q| {
      PartialClimbs(pool, y, t, |p| - 1, |q| - 1);
    }
  }

  lemma BarGrows(pool: Pool, a: seq<Hash>, b: seq<Hash>, t: nat)
    requires Linked(pool) && Ranked(pool) && Ready(pool, a, t) && Ready(pool, b, t) && Grows(pool, a, b, t)
    ensures Bar(pool, a, t) <= Bar(pool, b, t)
  {
    var _ := BarIsReached(pool, a, t);
    var c := BarIsReached(pool, b, t);
    if Bar(pool, b, t) != U32 - 1 {
      BarIsLow(pool, a, t, c);
      EndGrows(pool, a[c], b[c], t);
    }
  }

  /**
   * Finality: when partial chains only grow, the bar never falls, nothing new becomes eligible below an
   * earlier bar, and the listing only grows at its end.
   */
  lemma Finality(pool: Pool, a: seq<Hash>, b: seq<Hash>, t: nat, s: seq<Hash>, l: seq<Hash>)
    requires Linked(pool) && Ranked(pool) && Ready(pool, a, t) && Ready(pool, b, t) && Grows(pool, a, b, t)
    requires Lists(pool, s, Eligible(pool, a, t)) && Lists(pool, l, Eligible(pool, b, t))
    ensures Bar(pool, a, t) <= Bar(pool, b, t)
    ensures forall h :: h in Eligible(pool, b, t) && NextRank(pool, h) < Bar(pool, a, t) ==> h in Eligible(pool, a, t)
    ensures s <= l
  {
    BarGrows(pool, a, b, t);
    forall c | 0 <= c < |a| ensures Comparable(Partial(pool, a[c], t), Partial(pool, b[c], t)) {
      assert Partial(pool, a[c], t) <= Partial(pool, b[c], t);
    }
    assert Agreeing(pool, a, b, t);
    LowerBarDecides(pool, a, b, t);
    LowerBarIsPrefix(pool, a, b, t, s, l);
  }
}
