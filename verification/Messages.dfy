/** The two messages that carry a block: its header, and later its contents with the mining metadata. */
module Messages {
  import opened Prelude
  import opened Numerals
  import opened Fields
  import Merkle

  datatype Metadata = Metadata(trailing: nat, trailingId: nat, rootChains: string, rootTxs: string, proof: seq<string>, timeMined: nat)

  datatype FullBlock = FullBlock(ip: string, port: nat, chain: nat, hash: nat, txs: string, meta: Metadata, sentTime: nat)

  datatype BlockHeader = BlockHeader(ip: string, port: nat, chain: nat, parent: nat, hash: nat,
                                     noTxs: nat, depth: nat, rank: nat, nextRank: nat)

  /** Unreadable numbers are read as 0; strict nodes then refuse the message. */
  function ReadInt(s: string): nat {
    match Stoi(s, 10) case Some(v) => v case None => 0
  }

  function ReadLong(s: string): nat {
    match Stoull(s, 10) case Some(v) => v case None => 0
  }

  function Dec(n: nat): string { Print(n, 10) }

  // ---------- terminated fields ----------

  /** Every field followed by a comma. */
  function Terminated(fields: seq<string>): string {
    if fields == [] then [] else fields[0] + "," + Terminated(fields[1..])
  }

  lemma {:induction false} TerminatedAppend(a: seq<string>, b: seq<string>)
    ensures Terminated(a + b) == Terminated(a) + Terminated(b)
    decreases |a|
  {
    if a == [] {
      assert a + b == b;
    } else {
      TerminatedAppend(a[1..], b);
      assert (a + b)[1..] == a[1..] + b;
    }
  }

  lemma {:induction false} JoinIsTerminated(a: seq<string>, last: string)
    ensures Join(a + [last], ',') == Terminated(a) + last
    decreases |a|
  {
    if a == [] {
      assert a + [last] == [last];
    } else {
      JoinIsTerminated(a[1..], last);
      assert (a + [last])[1..] == a[1..] + [last];
      assert a[0] + [','] + (Terminated(a[1..]) + last) == a[0] + "," + Terminated(a[1..]) + last;
    }
  }

  // ---------- the full block ----------

  function FullBlockHead(b: FullBlock): seq<string> {
    ["#full_block", b.ip, Dec(b.port), Dec(b.chain), Dec(b.hash), b.txs,
     Dec(b.meta.trailing), Dec(b.meta.trailingId), b.meta.rootChains, b.meta.rootTxs]
  }

  function FullBlockFields(b: FullBlock): seq<string> {
    FullBlockHead(b) + b.meta.proof + [Dec(b.meta.timeMined)] + [Dec(b.sentTime)]
  }

  /** The text of a full-block message, field by field. */
  lemma FullBlockText(b: FullBlock)
    ensures Join(FullBlockFields(b), ',') ==
      "#full_block" + "," + (b.ip + "," + (Print(b.port, 10) + "," + (Print(b.chain, 10) + "," + (Print(b.hash, 10) + ","
      + (b.txs + "," + (Print(b.meta.trailing, 10) + "," + (Print(b.meta.trailingId, 10) + "," + (b.meta.rootChains + ","
      + (b.meta.rootTxs + "," + (Terminated(b.meta.proof) + (Print(b.meta.timeMined, 10) + "," + Print(b.sentTime, 10))))))))))))
  {
    hide Print, Join, Terminated;
    var head, time, sent := FullBlockHead(b), Dec(b.meta.timeMined), Dec(b.sentTime);
    JoinIsTerminated(head + b.meta.proof + [time], sent);
    TerminatedAppend(head + b.meta.proof, [time]);
    TerminatedAppend(head, b.meta.proof);
    TerminatedFrom([time], 0);
    HeadText(head, Terminated(b.meta.proof) + (time + "," + sent));
    assert Terminated(head) + Terminated(b.meta.proof) + (time + "," + []) + sent
        == Terminated(head) + (Terminated(b.meta.proof) + (time + "," + sent));
  }

  /** The fields from position i on. */
  lemma TerminatedFrom(fields: seq<string>, i: nat)
    requires i < |fields|
    ensures fields[0..] == fields
    ensures Terminated(fields[i..]) == fields[i] + "," + if i + 1 == |fields| then [] else Terminated(fields[i + 1..])
  {
    assert fields[i..][1..] == fields[i + 1..];
  }

  lemma HeadText(f: seq<string>, rest: string)
    requires |f| == 10
    ensures Terminated(f) + rest == f[0] + "," + (f[1] + "," + (f[2] + "," + (f[3] + "," + (f[4] + "," + (f[5] + "," + (f[6] + ","
      + (f[7] + "," + (f[8] + "," + (f[9] + "," + rest)))))))))
  {
    hide Terminated;
    Nested(f, 9, rest); Nested(f, 8, rest); Nested(f, 7, rest); Nested(f, 6, rest); Nested(f, 5, rest);
    Nested(f, 4, rest); Nested(f, 3, rest); Nested(f, 2, rest); Nested(f, 1, rest); Nested(f, 0, rest);
  }

  lemma Nested(f: seq<string>, i: nat, rest: string)
    requires i < |f|
    ensures f[0..] == f
    ensures Terminated(f[i..]) + rest == f[i] + "," + if i + 1 == |f| then rest else Terminated(f[i + 1..]) + rest
  {
    hide Terminated;
    TerminatedFrom(f, i);
    assert [] + rest == rest;
  }

  /** The message is put together piece by piece, the proof in a loop. */
  method CreateFullBlock(b: FullBlock) returns (s: string)
    ensures s == Join(FullBlockFields(b), ',')
    ensures s ==
      "#full_block" + "," + (b.ip + "," + (Print(b.port, 10) + "," + (Print(b.chain, 10) + "," + (Print(b.hash, 10) + ","
      + (b.txs + "," + (Print(b.meta.trailing, 10) + "," + (Print(b.meta.trailingId, 10) + "," + (b.meta.rootChains + ","
      + (b.meta.rootTxs + "," + (Terminated(b.meta.proof) + (Print(b.meta.timeMined, 10) + "," + Print(b.sentTime, 10))))))))))))
  {
    FullBlockText(b);
    hide Print;
    var head := FullBlockHead(b);
    s := [];
    var i := 0;
    while i < |head|
      invariant 0 <= i <= |head| && s == Terminated(head[..i])
    {
      TerminatedNext(head, i);
      s := s + head[i] + ",";
      i := i + 1;
    }
    assert head[..i] == head && head + b.meta.proof[..0] == head;
    i := 0;
    while i < |b.meta.proof|
      invariant 0 <= i <= |b.meta.proof| && s == Terminated(head + b.meta.proof[..i])
    {
      TerminatedNext(head + b.meta.proof, |head| + i);
      assert (head + b.meta.proof)[..|head| + i] == head + b.meta.proof[..i];
      assert (head + b.meta.proof)[..|head| + i + 1] == head + b.meta.proof[..i + 1];
      s := s + b.meta.proof[i] + ",";
      i := i + 1;
    }
    assert b.meta.proof[..i] == b.meta.proof;
    var body := head + b.meta.proof;
    TerminatedAppend(body, [Dec(b.meta.timeMined)]);
    JoinIsTerminated(body + [Dec(b.meta.timeMined)], Dec(b.sentTime));
    s := s + (Dec(b.meta.timeMined) + "," + []) + Dec(b.sentTime);
  }

  lemma TerminatedNext(fields: seq<string>, i: nat)
    requires i < |fields|
    ensures Terminated(fields[..i + 1]) == Terminated(fields[..i]) + fields[i] + ","
  {
    TerminatedAppend(fields[..i], [fields[i]]);
    assert fields[..i + 1] == fields[..i] + [fields[i]];
    assert Terminated([fields[i]]) == fields[i] + "," + [];
  }

  /** All numeric fields of the message are readable. */
  predicate FullBlockReadable(sp: seq<string>, mpl: nat)
    requires |sp| >= 12 + mpl
  {
    && Stoi(sp[2], 10).Some? && Stoi(sp[3], 10).Some? && Stoull(sp[4], 10).Some? && Stoull(sp[6], 10).Some?
    && Stoull(sp[7], 10).Some? && Stoull(sp[10 + mpl], 10).Some? && Stoull(sp[11 + mpl], 10).Some?
  }

  function ParseFullBlock(sp: seq<string>, chains: nat, strict: bool): Option<FullBlock> {
    var mpl := Merkle.ProofLength(chains);
    if |sp| < 12 + mpl then None
    else if strict && !(FullBlockReadable(sp, mpl) && |sp[1]| > 0 && ReadInt(sp[3]) < chains) then None
    else
      Some(FullBlock(sp[1], ReadInt(sp[2]), ReadInt(sp[3]), ReadLong(sp[4]), sp[5],
                     Metadata(ReadLong(sp[6]), ReadLong(sp[7]) % U32, sp[8], sp[9], sp[10..10 + mpl], ReadLong(sp[10 + mpl])),
                     ReadLong(sp[11 + mpl])))
  }

  /** What a node writes: numbers of their C++ width, texts without commas, a proof of the length that readers expect. */
  ghost predicate Written(b: FullBlock, chains: nat) {
    && b.hash < U64 && b.meta.trailing < U64 && b.meta.trailingId < U32 && b.meta.timeMined < U64 && b.sentTime < U64
    && Free(b.ip, ',') && Free(b.txs, ',') && Free(b.meta.rootChains, ',') && Free(b.meta.rootTxs, ',')
    && |b.meta.proof| == Merkle.ProofLength(chains) && forall i :: 0 <= i < |b.meta.proof| ==> Free(b.meta.proof[i], ',')
  }

  /** A strict reader also needs a named sender, a chain that exists and numbers that std::stoi can read. */
  predicate Readable(b: FullBlock, chains: nat) {
    b.ip != [] && b.port < I32 && b.chain < I32 && b.chain < chains
  }

  ghost predicate Sendable(b: FullBlock, chains: nat) {
    Written(b, chains) && Readable(b, chains)
  }

  /** What std::stoi makes of a printed number; 0 if it cannot be read. */
  function AsInt(n: nat): nat {
    if n < I32 then n else 0
  }

  lemma {:induction false} DecIsFree(n: nat)
    ensures Free(Dec(n), ',')
  {
    if n < 10 {
      DigitInverse(n);
    } else {
      DecIsFree(n / 10);
      DigitInverse(n % 10);
    }
  }

  lemma FieldsAreFree(b: FullBlock, chains: nat)
    requires Written(b, chains)
    ensures forall i :: 0 <= i < |FullBlockFields(b)| ==> Free(FullBlockFields(b)[i], ',')
  {
    DecIsFree(b.port); DecIsFree(b.chain); DecIsFree(b.hash); DecIsFree(b.meta.trailing); DecIsFree(b.meta.trailingId);
    DecIsFree(b.meta.timeMined); DecIsFree(b.sentTime);
    var fields := FullBlockFields(b);
    forall i | 0 <= i < |fields| ensures Free(fields[i], ',') {
      if i < 10 { assert fields[i] == FullBlockHead(b)[i]; }
      else if i < 10 + |b.meta.proof| { assert fields[i] == b.meta.proof[i - 10]; }
    }
  }

  /** Splitting the message gives its fields back. */
  lemma FullBlockSplits(b: FullBlock, chains: nat)
    requires Written(b, chains)
    ensures SplitOn(Join(FullBlockFields(b), ','), ',') == FullBlockFields(b)
  {
    FieldsAreFree(b, chains);
    SplitJoin(FullBlockFields(b), ',');
  }

  lemma ReadsBack(n: nat)
    ensures n < I32 ==> Stoi(Dec(n), 10) == Some(n) && ReadInt(Dec(n)) == n
    ensures n >= I32 ==> Stoi(Dec(n), 10) == None && ReadInt(Dec(n)) == 0
    ensures n < U64 ==> Stoull(Dec(n), 10) == Some(n) && ReadLong(Dec(n)) == n
  {
    StoiOfPrint(n, 10);
    StoullOfPrint(n, 10);
  }

  /** Where the fields of a full block are. */
  lemma FullBlockLayout(b: FullBlock)
    ensures var sp, mpl := FullBlockFields(b), |b.meta.proof|;
      && |sp| == 12 + mpl && sp[..10] == FullBlockHead(b) && sp[10..10 + mpl] == b.meta.proof
      && sp[10 + mpl] == Dec(b.meta.timeMined) && sp[11 + mpl] == Dec(b.sentTime)
  {
    hide Print;
  }

  /**
   * What a reader gets of any written full block: a strict one refuses it unless the sender is named, the chain exists
   * and the 32-bit numbers are below 2^31; a lenient one takes a larger number for 0.
   */
  lemma FullBlockReceived(b: FullBlock, chains: nat, strict: bool)
    requires Written(b, chains)
    ensures ParseFullBlock(SplitOn(Join(FullBlockFields(b), ','), ','), chains, strict) ==
      if strict && !Readable(b, chains) then None else Some(b.(port := AsInt(b.port), chain := AsInt(b.chain)))
  {
    hide Written, Readable, FullBlockFields, FullBlockHead, ParseFullBlock, SplitOn, Join, Print, AsInt;
    FullBlockSplits(b, chains);
    FullBlockLayout(b);
    FieldsReadBack(b, chains, strict, FullBlockFields(b));
  }

  /** A sent full block is received as it was, by strict and lenient nodes alike. */
  lemma FullBlockRoundTrip(b: FullBlock, chains: nat, strict: bool)
    requires Sendable(b, chains)
    ensures ParseFullBlock(SplitOn(Join(FullBlockFields(b), ','), ','), chains, strict) == Some(b)
  {
    hide FullBlockFields, ParseFullBlock, SplitOn, Join, Written;
    FullBlockReceived(b, chains, strict);
  }

  lemma FieldsReadBack(b: FullBlock, chains: nat, strict: bool, sp: seq<string>)
    requires Written(b, chains) && |sp| == 12 + |b.meta.proof| && sp[..10] == FullBlockHead(b)
    requires var mpl := |b.meta.proof|;
      sp[10..10 + mpl] == b.meta.proof && sp[10 + mpl] == Dec(b.meta.timeMined) && sp[11 + mpl] == Dec(b.sentTime)
    ensures ParseFullBlock(sp, chains, strict) ==
      if strict && !Readable(b, chains) then None else Some(b.(port := AsInt(b.port), chain := AsInt(b.chain)))
  {
    hide Stoi, Stoull, Print, ReadInt, ReadLong;
    ReadsBack(b.port); ReadsBack(b.chain); ReadsBack(b.hash); ReadsBack(b.meta.trailing); ReadsBack(b.meta.trailingId);
    ReadsBack(b.meta.timeMined); ReadsBack(b.sentTime);
    var head := FullBlockHead(b);
    assert forall i :: 0 <= i < 10 ==> sp[i] == sp[..10][i];
    assert sp[2] == head[2] && sp[3] == head[3] && sp[4] == head[4] && sp[6] == head[6] && sp[7] == head[7];
  }

  // ---------- the header ----------

  function HeaderFields(h: BlockHeader): seq<string> {
    ["#process_block", h.ip, Dec(h.port), Dec(h.chain), Dec(h.parent), Dec(h.hash), Dec(h.noTxs), Dec(h.depth),
        Dec(h.rank), Dec(h.nextRank)]
  }

  function ParseHeader(sp: seq<string>, chains: nat, strict: bool): Option<BlockHeader> {
    if |sp| < 10 then None
    else
      var readable := Stoi(sp[2], 10).Some? && Stoi(sp[3], 10).Some? && Stoull(sp[4], 10).Some? && Stoull(sp[5], 10).Some?
        && Stoi(sp[6], 10).Some? && Stoi(sp[7], 10).Some? && Stoi(sp[8], 10).Some? && Stoi(sp[9], 10).Some?;
      if strict && !(readable && |sp[1]| > 0 && ReadInt(sp[3]) < chains) then None
      else Some(BlockHeader(sp[1], ReadInt(sp[2]), ReadInt(sp[3]), ReadLong(sp[4]), ReadLong(sp[5]),
                            ReadInt(sp[6]), ReadInt(sp[7]), ReadInt(sp[8]), ReadInt(sp[9])))
  }

  /** The text of a header message. */
  lemma HeaderText(h: BlockHeader)
    ensures Join(HeaderFields(h), ',') ==
      "#process_block" + "," + (h.ip + "," + (Print(h.port, 10) + "," + (Print(h.chain, 10) + "," + (Print(h.parent, 10) + ","
      + (Print(h.hash, 10) + "," + (Print(h.noTxs, 10) + "," + (Print(h.depth, 10) + "," + (Print(h.rank, 10) + ","
      + Print(h.nextRank, 10)))))))))
  {
    hide Print, Join;
    var fields := HeaderFields(h);
    JoinFrom(fields, 0); JoinFrom(fields, 1); JoinFrom(fields, 2); JoinFrom(fields, 3); JoinFrom(fields, 4);
    JoinFrom(fields, 5); JoinFrom(fields, 6); JoinFrom(fields, 7); JoinFrom(fields, 8); JoinFrom(fields, 9);
  }

  /** The fields from position i on. */
  lemma JoinFrom(fields: seq<string>, i: nat)
    requires i < |fields|
    ensures fields[0..] == fields
    ensures Join(fields[i..], ',') == if i + 1 == |fields| then fields[i] else fields[i] + "," + Join(fields[i + 1..], ',')
  {
    assert fields[i..][1..] == fields[i + 1..];
  }

  /** The 32-bit fields that a node reads with std::stoi. */
  predicate FitsInt(h: BlockHeader) {
    h.port < I32 && h.chain < I32 && h.noTxs < I32 && h.depth < I32 && h.rank < I32 && h.nextRank < I32
  }

  lemma HeaderSplits(h: BlockHeader)
    requires Free(h.ip, ',')
    ensures SplitOn(Join(HeaderFields(h), ','), ',') == HeaderFields(h)
  {
    DecIsFree(h.port); DecIsFree(h.chain); DecIsFree(h.parent); DecIsFree(h.hash); DecIsFree(h.noTxs);
    DecIsFree(h.depth); DecIsFree(h.rank); DecIsFree(h.nextRank);
    hide Print;
    SplitJoin(HeaderFields(h), ',');
  }

  /** What a reader gets of any sent header. */
  lemma HeaderReceived(h: BlockHeader, chains: nat, strict: bool)
    requires Free(h.ip, ',') && h.parent < U64 && h.hash < U64
    ensures ParseHeader(SplitOn(Join(HeaderFields(h), ','), ','), chains, strict) ==
      if strict && !(FitsInt(h) && h.ip != [] && h.chain < chains) then None
      else Some(BlockHeader(h.ip, AsInt(h.port), AsInt(h.chain), h.parent, h.hash, AsInt(h.noTxs), AsInt(h.depth), AsInt(h.rank),
                            AsInt(h.nextRank)))
  {
    HeaderSplits(h);
    ReadsBack(h.port); ReadsBack(h.chain); ReadsBack(h.parent); ReadsBack(h.hash); ReadsBack(h.noTxs);
    ReadsBack(h.depth); ReadsBack(h.rank); ReadsBack(h.nextRank);
    hide Stoi, Stoull, Print, ReadInt, ReadLong, SplitOn, Join;
  }

  /**
   * Exactly when a sent header is received as it was: its 32-bit numbers are below 2^31, and at a strict node the
   * sender is named and the chain exists.  The numbers are printed as unsigned but read as signed; a lenient node
   * takes an unreadable one for 0.
   */
  lemma HeaderRoundTrip(h: BlockHeader, chains: nat, strict: bool)
    requires Free(h.ip, ',') && h.parent < U64 && h.hash < U64
    ensures ParseHeader(SplitOn(Join(HeaderFields(h), ','), ','), chains, strict) == Some(h) <==>
            FitsInt(h) && (strict ==> h.ip != [] && h.chain < chains)
  {
    hide ParseHeader, SplitOn, Join, HeaderFields;
    HeaderReceived(h, chains, strict);
  }
}
