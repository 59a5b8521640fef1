/**
 * Cutting the received stream into frames.
 *
 * A frame starts with '#' and ends with '!'.  Each read is appended to what the previous reads left over;
 * complete frames are handled and the unfinished rest stays in the buffer.
 */
module Framing {
  import opened Prelude
  import opened Fields

  /** The frames handed to the handlers, and what stays in the buffer. */
  datatype Outcome = Outcome(frames: seq<string>, rest: string)

  /** Whether a handler refuses a frame; it may depend on the frames handled before in the same call. */
  type Refusal = (seq<string>, string) -> bool

  /** Handles the frames from the one starting at `from`. */
  function Scan(m: string, from: nat, handled: seq<string>, refuses: Refusal): Outcome
    requires from < |m|
    decreases |m| - from
  {
    var next := Find(m, '#', from + 1);
    if m[next - 1] != '!' then Outcome(handled, m[from..])
    else
      var frame := m[from..next - 1];
      var now := handled + [frame];
      if next == |m| then Outcome(now, if refuses(handled, frame) then m[from..] else [])
      else Scan(m, next, now, refuses)
  }

  /** One call on the buffer; a buffer that does not start with '#' is thrown away. */
  function Handled(m: string, refuses: Refusal): Outcome {
    if m == [] || m[0] != '#' then Outcome([], []) else Scan(m, 0, [], refuses)
  }

  /** The positions of all '#' from `from` on, then one past the end. */
  function Positions(m: string, from: nat): seq<nat>
    requires from <= |m|
    decreases |m| - from
  {
    var p := Find(m, '#', from);
    if p == |m| then [|m| + 1] else [p] + Positions(m, p + 1)
  }

  /** Entry i is a '#', and the next one is where the search after it ends. */
  ghost predicate PositionAt(m: string, ps: seq<nat>, i: nat)
    requires i < |ps| - 1
  {
    ps[i] < |m| && m[ps[i]] == '#' && Find(m, '#', ps[i] + 1) == if i + 1 == |ps| - 1 then |m| else ps[i + 1]
  }

  lemma {:induction false} PositionsOk(m: string, from: nat, i: nat)
    requires from <= |m| && i < |Positions(m, from)| - 1
    ensures PositionAt(m, Positions(m, from), i)
    decreases |m| - from
  {
    hide Find, Positions, PositionAt;
    var p := Find(m, '#', from);
    PositionsStep(m, from);
    var rest := Positions(m, p + 1);
    PositionsStep(m, p + 1);
    if i == 0 {
      FirstPosition(m, p, rest);
    } else {
      PositionsOk(m, p + 1, i - 1);
      LaterPosition(m, p, rest, i);
    }
  }

  lemma FirstPosition(m: string, p: nat, rest: seq<nat>)
    requires p < |m| && m[p] == '#' && |rest| > 0
    requires if |rest| == 1 then Find(m, '#', p + 1) == |m| else Find(m, '#', p + 1) == rest[0]
    ensures PositionAt(m, [p] + rest, 0)
  {
    hide Find;
  }

  lemma LaterPosition(m: string, p: nat, rest: seq<nat>, i: nat)
    requires 0 < i < |rest| && PositionAt(m, rest, i - 1)
    ensures PositionAt(m, [p] + rest, i)
  {
    hide Find;
  }

  lemma PositionsStep(m: string, from: nat)
    requires from <= |m|
    ensures var p, ps := Find(m, '#', from), Positions(m, from);
      && |ps| > 0 && (p < |m| ==> m[p] == '#')
      && if p == |m| then ps == [|m| + 1] else ps == [p] + Positions(m, p + 1) && |ps| > 1 && ps[0] == p
  {
  }

  method FindPositions(m: string) returns (positions: seq<nat>)
    ensures positions == Positions(m, 0)
  {
    hide Find, Positions;
    positions := [];
    var pos := Find(m, '#', 0);
    ghost var from: nat := 0;
    assert [] + Positions(m, 0) == Positions(m, 0);
    while pos < |m|
      invariant from <= pos <= |m| && pos == Find(m, '#', from) && positions + Positions(m, from) == Positions(m, 0)
      decreases |m| - pos
    {
      PositionsStep(m, from);
      AppendOne(positions, pos, Positions(m, pos + 1));
      positions := positions + [pos];
      from := pos + 1;
      pos := Find(m, '#', pos + 1);
    }
    PositionsStep(m, from);
    positions := positions + [|m| + 1];
  }

  /** Where the frame at position p ends. */
  function FrameEnd(m: string, ps: seq<nat>, p: nat): nat
    requires p < |ps| - 1
  {
    if p + 2 == |ps| then |m| else ps[p + 1]
  }

  /** The scan from one position on is settled here, or goes on at the next position. */
  lemma ScanOn(m: string, ps: seq<nat>, p: nat, handled: seq<string>, refuses: Refusal)
    requires ps == Positions(m, 0) && p < |ps| - 1
    ensures ps[p] < FrameEnd(m, ps, p) <= |m| && (p + 2 < |ps| ==> FrameEnd(m, ps, p) == ps[p + 1] < |m|)
    ensures var frame, end := m[ps[p]..FrameEnd(m, ps, p) - 1], FrameEnd(m, ps, p);
      Scan(m, ps[p], handled, refuses) ==
      if m[end - 1] != '!' then Outcome(handled, m[ps[p]..])
      else if p + 2 == |ps| then Outcome(handled + [frame], if refuses(handled, frame) then m[ps[p]..] else [])
      else Scan(m, end, handled + [frame], refuses)
  {
    hide Positions, Find;
    PositionsOk(m, 0, p);
    if p + 2 < |ps| { PositionsOk(m, 0, p + 1); }
  }

  lemma ScanFromStart(m: string, refuses: Refusal)
    requires m != [] && m[0] == '#'
    ensures |Positions(m, 0)| > 1 && Positions(m, 0)[0] == 0 && Scan(m, 0, [], refuses) == Handled(m, refuses)
  {
    PositionsStep(m, 0);
  }

  // ---------- how any buffer is cut ----------

  /** A '#' and what follows up to the next one. */
  ghost predicate Chunk(f: string) {
    f != [] && f[0] == '#' && Free(f[1..], '#')
  }

  /** The frames put together again. */
  function Framed(fs: seq<string>): string {
    if fs == [] then [] else Framed(fs[..|fs| - 1]) + fs[|fs| - 1] + "!"
  }

  /** The first chunk, of length j, does not end with '!'. */
  ghost predicate OpenAt(rest: string, j: nat) {
    0 < j <= |rest| && Chunk(rest[..j]) && rest[j - 1] != '!' && (j < |rest| ==> rest[j] == '#')
  }

  ghost predicate Open(rest: string) {
    exists j: nat :: OpenAt(rest, j)
  }

  /** The buffer ends with a frame that is refused. */
  predicate LastRefused(m: string, frames: seq<string>, refuses: Refusal) {
    frames != [] && Framed(frames) == m && refuses(frames[..|frames| - 1], frames[|frames| - 1])
  }

  /**
   * What one call makes of any buffer: nothing of one that does not start with '#'; otherwise the chunks up to the
   * first one that does not end with '!' are the frames, and the rest stays; a refused frame at the very end stays too.
   */
  ghost predicate CutInto(m: string, refuses: Refusal, frames: seq<string>, rest: string) {
    if m == [] || m[0] != '#' then frames == [] && rest == []
    else
      && (forall i :: 0 <= i < |frames| ==> Chunk(frames[i]))
      && if LastRefused(m, frames, refuses) then rest == frames[|frames| - 1] + "!"
         else m == Framed(frames) + rest && (rest == [] || Open(rest))
  }

  lemma ScanEnds(m: string, from: nat, handled: seq<string>, refuses: Refusal)
    requires from < |m| && m[0] == m[from] == '#' && Framed(handled) == m[..from]
    requires forall i :: 0 <= i < |handled| ==> Chunk(handled[i])
    requires m[Find(m, '#', from + 1) - 1] != '!'
    ensures CutInto(m, refuses, handled, m[from..])
  {
    var next := Find(m, '#', from + 1);
    assert m[..from] + m[from..] == m;
    assert m[from..][..next - from][1..] == m[from + 1..next];
    assert OpenAt(m[from..], next - from);
  }

  /** One frame more. */
  lemma ScanGains(m: string, from: nat, handled: seq<string>)
    requires from < |m| && m[from] == '#' && Framed(handled) == m[..from]
    requires m[Find(m, '#', from + 1) - 1] == '!'
    ensures var next := Find(m, '#', from + 1); var frame := m[from..next - 1];
      from < next - 1 && Chunk(frame) && Framed(handled + [frame]) == m[..next] && frame + "!" == m[from..next]
  {
    var next := Find(m, '#', from + 1);
    var frame := m[from..next - 1];
    assert frame[1..] == m[from + 1..next - 1];
    assert (handled + [frame])[..|handled|] == handled;
    assert m[..from] + frame + "!" == m[..next];
  }

  lemma {:induction false} ScanCuts(m: string, from: nat, handled: seq<string>, refuses: Refusal)
    requires from < |m| && m[0] == m[from] == '#' && Framed(handled) == m[..from]
    requires forall i :: 0 <= i < |handled| ==> Chunk(handled[i])
    ensures var o := Scan(m, from, handled, refuses); CutInto(m, refuses, o.frames, o.rest)
    decreases |m| - from
  {
    hide Find, Framed, Chunk, Open, CutInto, Scan;
    var next := Find(m, '#', from + 1);
    if m[next - 1] != '!' {
      ScanEnds(m, from, handled, refuses);
      ScanStops(m, from, handled, refuses);
    } else {
      ScanGains(m, from, handled);
      if next < |m| {
        ScanStep(m, from, handled, refuses, next);
        ScanCuts(m, next, handled + [m[from..next - 1]], refuses);
      } else {
        ScanLast(m, from, handled, refuses);
        var frame := m[from..next - 1];
        assert (handled + [frame])[..|handled|] == handled && m[..|m|] == m && m[from..|m|] == m[from..];
        LastCut(m, handled + [frame], refuses);
      }
    }
  }

  lemma ScanStops(m: string, from: nat, handled: seq<string>, refuses: Refusal)
    requires from < |m| && m[Find(m, '#', from + 1) - 1] != '!'
    ensures Scan(m, from, handled, refuses) == Outcome(handled, m[from..])
  {
  }

  lemma LastCut(m: string, frames: seq<string>, refuses: Refusal)
    requires m != [] && m[0] == '#' && frames != [] && Framed(frames) == m && forall i :: 0 <= i < |frames| ==> Chunk(frames[i])
    ensures var n := |frames| - 1;
      CutInto(m, refuses, frames, if refuses(frames[..n], frames[n]) then frames[n] + "!" else [])
  {
    hide Framed, Chunk, Open;
  }

  lemma HandledCuts(m: string, refuses: Refusal)
    ensures var o := Handled(m, refuses); CutInto(m, refuses, o.frames, o.rest)
  {
    if m != [] && m[0] == '#' { ScanCuts(m, 0, [], refuses); }
  }

  /** Behind the first k frames come the others, each starting with '#'. */
  lemma {:induction false} FramedAhead(fs: seq<string>, k: nat, rest: string) returns (tail: string)
    requires k <= |fs| && (forall i :: 0 <= i < |fs| ==> Chunk(fs[i])) && (rest == [] || rest[0] == '#')
    ensures Framed(fs) + rest == Framed(fs[..k]) + tail && (tail == [] || tail[0] == '#')
    ensures k == |fs| ==> tail == rest
    decreases |fs|
  {
    if k == |fs| {
      assert fs[..k] == fs;
      tail := rest;
    } else {
      var n := |fs| - 1;
      assert fs[..n][..k] == fs[..k];
      tail := FramedAhead(fs[..n], k, fs[n] + "!" + rest);
      assert Framed(fs[..n]) + (fs[n] + "!" + rest) == Framed(fs) + rest;
    }
  }

  /** The text is these frames, and then nothing or an open rest. */
  ghost predicate Reads(m: string, fs: seq<string>, b: string) {
    m == Framed(fs) + b && (b == [] || (b[0] == '#' && Open(b))) && forall i :: 0 <= i < |fs| ==> Chunk(fs[i])
  }

  /** Frame f is in the text between p and q. */
  ghost predicate FrameFrom(m: string, p: nat, q: nat, f: string) {
    p < q - 1 < |m| && q == Find(m, '#', p + 1) && m[q - 1] == '!' && f == m[p..q - 1]
  }

  /** Where frame k is in the text. */
  lemma FrameAt(m: string, fs: seq<string>, b: string, k: nat)
    requires Reads(m, fs, b) && k < |fs|
    ensures FrameFrom(m, |Framed(fs[..k])|, |Framed(fs[..k + 1])|, fs[k])
  {
    var tail := FramedAhead(fs, k + 1, b);
    var before, f := Framed(fs[..k]), fs[k];
    assert Chunk(f) && fs[..k + 1][..k] == fs[..k];
    assert Framed(fs[..k + 1]) == before + f + "!";
    FrameThere(m, before, f, tail);
  }

  lemma FrameThere(m: string, before: string, f: string, tail: string)
    requires m == before + f + "!" + tail && Chunk(f) && (tail == [] || tail[0] == '#')
    ensures FrameFrom(m, |before|, |before| + |f| + 1, f)
  {
    var p, q := |before|, |before| + |f| + 1;
    assert m[p..q - 1] == f && m[q - 1] == '!';
    assert forall i :: p + 1 <= i < q - 1 ==> m[i] == f[1..][i - p - 1];
    FindUnique(m, '#', p + 1, q);
  }

  /** An open rest has no frame at its start. */
  lemma OpenAtEnd(m: string, p: nat)
    requires p <= |m| && Open(m[p..])
    ensures p < |m| && m[Find(m, '#', p + 1) - 1] != '!'
  {
    var j: nat :| OpenAt(m[p..], j);
    assert forall i :: p + 1 <= i < p + j ==> m[i] == m[p..][..j][1..][i - p - 1];
    FindUnique(m, '#', p + 1, p + j);
  }

  lemma {:induction false} SameFrames(m: string, fs: seq<string>, a: string, gs: seq<string>, b: string, k: nat)
    requires Reads(m, fs, a) && Reads(m, gs, b) && k <= |fs| && k <= |gs|
    ensures fs[..k] == gs[..k]
    decreases k
  {
    hide Reads, Framed;
    if k > 0 {
      SameFrames(m, fs, a, gs, b, k - 1);
      FrameAt(m, fs, a, k - 1);
      FrameAt(m, gs, b, k - 1);
      assert fs[..k] == fs[..k - 1] + [fs[k - 1]] && gs[..k] == gs[..k - 1] + [gs[k - 1]];
    }
  }

  lemma RestStart(m: string, fs: seq<string>, b: string)
    requires Reads(m, fs, b)
    ensures |Framed(fs)| <= |m| && (|Framed(fs)| < |m| ==> Open(m[|Framed(fs)|..]))
  {
    hide Framed, Open;
    assert m[|Framed(fs)|..] == b;
  }

  lemma NotMore(m: string, fs: seq<string>, a: string, gs: seq<string>, b: string)
    requires Reads(m, fs, a) && Reads(m, gs, b)
    ensures |fs| >= |gs|
  {
    var n := |fs|;
    if n < |gs| {
      SameFrames(m, fs, a, gs, b, n);
      FrameAt(m, gs, b, n);
      assert fs[..n] == fs && gs[..n] == fs;
      RestStart(m, fs, a);
      hide Framed, Open, Reads, Find;
      OpenAtEnd(m, |Framed(fs)|);
    }
  }

  /** What is behind the frames: nothing if a refused frame stays, else the rest. */
  ghost function Behind(m: string, refuses: Refusal, frames: seq<string>, rest: string): string {
    if LastRefused(m, frames, refuses) then [] else rest
  }

  lemma CutReads(m: string, refuses: Refusal, fs: seq<string>, rest: string)
    requires CutInto(m, refuses, fs, rest) && m != [] && m[0] == '#'
    ensures Reads(m, fs, Behind(m, refuses, fs, rest))
  {
    hide Framed;
    if !LastRefused(m, fs, refuses) && rest != [] {
      var j: nat :| OpenAt(rest, j);
      assert rest[..j][0] == '#';
    }
  }

  /** The reading of CutInto fits no other outcome than the one computed. */
  lemma CutIsUnique(m: string, refuses: Refusal, frames: seq<string>, rest: string)
    ensures CutInto(m, refuses, frames, rest) <==> Outcome(frames, rest) == Handled(m, refuses)
  {
    HandledCuts(m, refuses);
    if CutInto(m, refuses, frames, rest) && m != [] && m[0] == '#' {
      var o := Handled(m, refuses);
      SameCut(m, refuses, frames, rest, o.frames, o.rest);
    }
  }

  lemma SameCut(m: string, refuses: Refusal, fs: seq<string>, a: string, gs: seq<string>, b: string)
    requires m != [] && m[0] == '#' && CutInto(m, refuses, fs, a) && CutInto(m, refuses, gs, b)
    ensures fs == gs && a == b
  {
    CutReads(m, refuses, fs, a);
    CutReads(m, refuses, gs, b);
    var x, y := Behind(m, refuses, fs, a), Behind(m, refuses, gs, b);
    NotMore(m, fs, x, gs, y);
    NotMore(m, gs, y, fs, x);
    SameFrames(m, fs, x, gs, y, |fs|);
    assert fs[..|fs|] == fs && gs[..|fs|] == gs;
    hide Framed, Reads, Open, Chunk;
    if !LastRefused(m, fs, refuses) { assert m[|Framed(fs)|..] == a && m[|Framed(fs)|..] == b; }
  }

  method ProcessBuffer(m: string, refuses: Refusal) returns (frames: seq<string>, rest: string)
    ensures Outcome(frames, rest) == Handled(m, refuses)
    ensures CutInto(m, refuses, frames, rest)
  {
    hide Find, Positions, Scan, CutInto;
    HandledCuts(m, refuses);
    frames, rest := [], [];
    if m == [] || m[0] != '#' {
      return;
    }
    hide Handled;
    var positions := FindPositions(m);
    ScanFromStart(m, refuses);
    var p := 0;
    while p < |positions| - 1
      invariant 0 <= p <= |positions| - 1
      invariant p < |positions| - 1 ==> positions[p] < |m| && Scan(m, positions[p], frames, refuses) == Handled(m, refuses)
      invariant p == |positions| - 1 ==> Outcome(frames, []) == Handled(m, refuses)
    {
      ScanOn(m, positions, p, frames, refuses);
      var next := if p + 2 == |positions| then |m| else positions[p + 1];
      if m[next - 1] != '!' {
        return frames, m[positions[p]..];
      }
      var frame := m[positions[p]..next - 1];
      var refused := refuses(frames, frame);
      frames := frames + [frame];
      if refused && p + 2 == |positions| {
        return frames, m[positions[p]..];
      }
      p := p + 1;
    }
  }

  // ---------- streams of frames ----------

  /** '!' occurs only where a frame ends: right before the next '#' or at the very end. */
  ghost predicate WellFormed(s: string) {
    && (s != [] ==> s[0] == '#')
    && forall i :: 0 <= i < |s| - 1 ==> (s[i] == '!' <==> s[i + 1] == '#')
  }

  const NEVER: Refusal := (handled, frame) => false

  /** A stream read from the front, without the accumulator. */
  function Frames(s: string): seq<string>
    decreases |s|
  {
    if s == [] then []
    else
      var next := Find(s, '#', 1);
      (if s[next - 1] == '!' then [s[..next - 1]] else []) + if next == |s| then [] else Frames(s[next..])
  }

  function Tail(s: string): string
    decreases |s|
  {
    if s == [] then []
    else
      var next := Find(s, '#', 1);
      if next == |s| then (if s[next - 1] == '!' then [] else s) else Tail(s[next..])
  }

  lemma ScanStep(m: string, from: nat, handled: seq<string>, refuses: Refusal, next: nat)
    requires from < |m| && next == Find(m, '#', from + 1) < |m| && m[next - 1] == '!'
    ensures Scan(m, from, handled, refuses) == Scan(m, next, handled + [m[from..next - 1]], refuses)
  {
  }

  lemma ScanLast(m: string, from: nat, handled: seq<string>, refuses: Refusal)
    requires from < |m| && Find(m, '#', from + 1) == |m|
    ensures Scan(m, from, handled, refuses) ==
            if m[|m| - 1] != '!' then Outcome(handled, m[from..])
            else Outcome(handled + [m[from..|m| - 1]], if refuses(handled, m[from..|m| - 1]) then m[from..] else [])
  {
  }

  /** The first of several frames. */
  lemma FramesAhead(x: string, next: nat)
    requires x != [] && next == Find(x, '#', 1) < |x| && x[next - 1] == '!'
    ensures Frames(x) == [x[..next - 1]] + Frames(x[next..]) && Tail(x) == Tail(x[next..])
  {
  }

  /** The only one, finished or not. */
  lemma FramesLast(x: string)
    requires x != [] && Find(x, '#', 1) == |x|
    ensures if x[|x| - 1] == '!' then Frames(x) == [x[..|x| - 1]] && Tail(x) == [] else Frames(x) == [] && Tail(x) == x
  {
  }

  /** The text ends right after a frame that is refused, behind those handled before it. */
  predicate EndsRefused(s: string, handled: seq<string>, refuses: Refusal) {
    s != [] && s[|s| - 1] == '!' && var fs := Frames(s); fs != [] && refuses(handled + fs[..|fs| - 1], fs[|fs| - 1])
  }

  /** What stays in the buffer: a refused frame at the very end, or the unfinished one. */
  function Kept(s: string, handled: seq<string>, refuses: Refusal): string {
    if EndsRefused(s, handled, refuses) then Frames(s)[|Frames(s)| - 1] + ['!'] else Tail(s)
  }

  /** A text that ends with '!' ends with a frame: '#' and a message. */
  lemma {:induction false} EndsWithFrame(s: string)
    requires WellFormed(s) && s != [] && s[|s| - 1] == '!'
    ensures Tail(s) == [] && Frames(s) != []
    ensures var f := Frames(s)[|Frames(s)| - 1]; f != [] && f[0] == '#' && Plain(f[1..])
    decreases |s|
  {
    hide Frames, Tail, WellFormed, Plain;
    var next := Find(s, '#', 1);
    if next < |s| {
      NextFrame(s, next);
      FramesAhead(s, next);
      EndsWithFrame(s[next..]);
    } else {
      FramesLast(s);
      LastIsPlain(s);
    }
  }

  lemma NextFrame(s: string, next: nat)
    requires WellFormed(s) && s != [] && next == Find(s, '#', 1) < |s|
    ensures s[next - 1] == '!' && WellFormed(s[next..]) && s[next..][|s| - next - 1] == s[|s| - 1]
  {
    SuffixWellFormed(s, next);
  }

  lemma LastIsPlain(s: string)
    requires WellFormed(s) && s != [] && s[|s| - 1] == '!' && Find(s, '#', 1) == |s|
    ensures |s| > 1 && s[0] == '#' && Plain(s[..|s| - 1][1..])
  {
    var f := s[..|s| - 1];
    forall i | 0 <= i < |f[1..]| ensures f[1..][i] != '#' && f[1..][i] != '!' {
      assert f[1..][i] == s[i + 1] && s[i + 2] != '#';
    }
  }

  lemma RefusedAhead(s: string, next: nat, handled: seq<string>, refuses: Refusal)
    requires WellFormed(s) && s != [] && next == Find(s, '#', 1) < |s| && s[next - 1] == '!'
    ensures EndsRefused(s, handled, refuses) <==> EndsRefused(s[next..], handled + [s[..next - 1]], refuses)
  {
    hide Find, Frames, Tail, WellFormed;
    var f, rest := s[..next - 1], Frames(s[next..]);
    FramesAhead(s, next);
    assert s[|s| - 1] == s[next..][|s| - next - 1];
    if s[|s| - 1] == '!' {
      LaterEnds(s, next);
      assert Frames(s)[..|Frames(s)| - 1] == [f] + rest[..|rest| - 1];
      assert handled + ([f] + rest[..|rest| - 1]) == (handled + [f]) + rest[..|rest| - 1];
    }
  }

  lemma KeptAhead(s: string, next: nat, handled: seq<string>, refuses: Refusal)
    requires WellFormed(s) && s != [] && next == Find(s, '#', 1) < |s| && s[next - 1] == '!'
    ensures Kept(s, handled, refuses) == Kept(s[next..], handled + [s[..next - 1]], refuses)
  {
    RefusedAhead(s, next, handled, refuses);
    FramesAhead(s, next);
    hide Find, Frames, Tail, WellFormed;
    if EndsRefused(s[next..], handled + [s[..next - 1]], refuses) { assert Frames(s[next..]) != []; }
  }

  lemma LaterEnds(s: string, next: nat)
    requires WellFormed(s) && 0 < next < |s| && s[next] == '#' && s[|s| - 1] == '!'
    ensures s[next..][|s| - next - 1] == '!' && Frames(s[next..]) != []
  {
    SuffixWellFormed(s, next);
    EndsWithFrame(s[next..]);
  }

  lemma KeptLast(s: string, handled: seq<string>, refuses: Refusal)
    requires s != [] && Find(s, '#', 1) == |s|
    ensures Kept(s, handled, refuses) ==
            if s[|s| - 1] == '!' && !refuses(handled, s[..|s| - 1]) then [] else s
  {
    hide Frames, Tail, Find, EndsRefused;
    FramesLast(s);
    NotRefused(s, handled, refuses);
    if s[|s| - 1] == '!' { RefusedAlone(s, s[..|s| - 1], handled, refuses); }
  }

  lemma NotRefused(s: string, handled: seq<string>, refuses: Refusal)
    ensures EndsRefused(s, handled, refuses) ==> s != [] && s[|s| - 1] == '!'
  {
  }

  /** A text of one frame. */
  lemma RefusedAlone(s: string, f: string, handled: seq<string>, refuses: Refusal)
    requires s != [] && s[|s| - 1] == '!' && f == s[..|s| - 1] && Frames(s) == [f]
    ensures (EndsRefused(s, handled, refuses) <==> refuses(handled, f)) && Frames(s)[|Frames(s)| - 1] + ['!'] == s
  {
    hide Frames;
    assert Frames(s)[..|Frames(s)| - 1] == [];
    assert handled + [] == handled;
  }

  lemma {:induction false} ScanIsFrames(m: string, from: nat, handled: seq<string>, refuses: Refusal)
    requires from < |m| && WellFormed(m) && m[from] == '#'
    ensures Scan(m, from, handled, refuses) == Outcome(handled + Frames(m[from..]), Kept(m[from..], handled, refuses))
    decreases |m| - from
  {
    hide Find, Frames, Tail, Scan, Kept;
    var s, next := m[from..], Find(m, '#', from + 1);
    assert s[..next - from - 1] == m[from..next - 1] && s[next - from - 1] == m[next - 1];
    if next < |m| {
      assert m[next - 1] == '!';
      ScanStep(m, from, handled, refuses, next);
      ScanIsFrames(m, next, handled + [m[from..next - 1]], refuses);
      FramesAhead(s, next - from);
      SuffixWellFormed(m, from);
      KeptAhead(s, next - from, handled, refuses);
      assert s[next - from..] == m[next..];
      assert (handled + [m[from..next - 1]]) + Frames(m[next..]) == handled + ([m[from..next - 1]] + Frames(m[next..]));
    } else {
      ScanLast(m, from, handled, refuses);
      FramesLast(s);
      KeptLast(s, handled, refuses);
    }
  }

  /** One call hands over all complete frames, whatever is refused. */
  lemma HandledIsFrames(s: string, refuses: Refusal)
    requires WellFormed(s)
    ensures Handled(s, refuses) == Outcome(Frames(s), Kept(s, [], refuses))
  {
    if s != [] {
      ScanIsFrames(s, 0, [], refuses);
      assert s[0..] == s;
    }
  }

  /** Handling a first part and then the rest behind what it left over is handling the whole. */
  lemma {:induction false} CutAnywhere(x: string, y: string)
    requires WellFormed(x + y)
    ensures WellFormed(x) && WellFormed(Tail(x) + y)
    ensures Frames(x + y) == Frames(x) + Frames(Tail(x) + y)
    ensures Tail(x + y) == Tail(Tail(x) + y)
    decreases |x|
  {
    hide Find, Frames, Tail, WellFormed;
    PrefixWellFormed(x, y);
    if x == [] {
      CutAtStart(y);
    } else if Find(x, '#', 1) < |x| {
      var next := Find(x, '#', 1);
      CutLater(x, y);
      CutAnywhere(x[next..], y);
      FramesAhead(x, next);
      assert [x[..next - 1]] + (Frames(x[next..]) + Frames(Tail(x) + y)) == Frames(x) + Frames(Tail(x) + y);
    } else {
      FramesLast(x);
      if x[|x| - 1] == '!' {
        CutAtFrameEnd(x, y);
        assert [] + y == y;
      } else {
        assert [] + Frames(x + y) == Frames(x + y);
      }
    }
  }

  lemma CutAtStart(y: string)
    ensures [] + y == y && Frames([]) == [] && Tail([]) == [] && Frames(y) == [] + Frames(y)
  {
  }

  lemma PrefixWellFormed(x: string, y: string)
    requires WellFormed(x + y)
    ensures WellFormed(x)
  {
    var s := x + y;
    forall i | 0 <= i < |x| - 1 ensures x[i] == '!' <==> x[i + 1] == '#' {
      assert s[i] == x[i] && s[i + 1] == x[i + 1];
    }
    if x != [] { assert s[0] == x[0]; }
  }

  lemma CutLater(x: string, y: string)
    requires WellFormed(x + y) && x != [] && Find(x, '#', 1) < |x|
    ensures var next := Find(x, '#', 1);
      && WellFormed(x[next..] + y) && x[next - 1] == '!'
      && Frames(x + y) == [x[..next - 1]] + Frames(x[next..] + y) && Tail(x + y) == Tail(x[next..] + y)
  {
    var s, next := x + y, Find(x, '#', 1);
    forall i | 0 <= i < |x| ensures s[i] == x[i] {}
    FindUnique(s, '#', 1, next);
    assert s[next - 1] == '!' && s[..next - 1] == x[..next - 1];
    assert s[next..] == x[next..] + y;
    SuffixWellFormed(s, next);
  }

  lemma SuffixWellFormed(s: string, k: nat)
    requires WellFormed(s) && k <= |s| && (k < |s| ==> s[k] == '#')
    ensures WellFormed(s[k..])
  {
    var t := s[k..];
    forall i | 0 <= i < |t| - 1 ensures t[i] == '!' <==> t[i + 1] == '#' {
      assert t[i] == s[k + i] && t[i + 1] == s[k + i + 1];
    }
  }

  lemma CutAtFrameEnd(x: string, y: string)
    requires WellFormed(x + y) && x != [] && Find(x, '#', 1) == |x| && x[|x| - 1] == '!'
    ensures WellFormed(y) && Frames(x + y) == [x[..|x| - 1]] + Frames(y) && Tail(x + y) == Tail(y)
  {
    var s := x + y;
    forall i | 0 <= i < |x| ensures s[i] == x[i] {}
    if y != [] { assert s[|x|] == y[0] == '#'; }
    FindUnique(s, '#', 1, |x|);
    assert s[..|x| - 1] == x[..|x| - 1] && s[|x|..] == y;
    SuffixWellFormed(s, |x|);
  }

  // ---------- successive reads ----------

  function Concat(chunks: seq<string>): string {
    if chunks == [] then [] else chunks[0] + Concat(chunks[1..])
  }

  /** All chunks read, in turn, starting from what is in the buffer. */
  function Feed(buffer: string, chunks: seq<string>, refuses: Refusal): Outcome
    decreases |chunks|
  {
    if chunks == [] then Outcome([], buffer)
    else
      var now := Handled(buffer + chunks[0], refuses);
      var later := Feed(now.rest, chunks[1..], refuses);
      Outcome(now.frames + later.frames, later.rest)
  }

  lemma {:induction false} FeedIsFrames(buffer: string, chunks: seq<string>)
    requires WellFormed(buffer + Concat(chunks)) && Frames(buffer) == [] && Tail(buffer) == buffer
    ensures Feed(buffer, chunks, NEVER) == Outcome(Frames(buffer + Concat(chunks)), Tail(buffer + Concat(chunks)))
    decreases |chunks|
  {
    if chunks == [] {
      assert buffer + [] == buffer;
    } else {
      var x, y := buffer + chunks[0], Concat(chunks[1..]);
      assert buffer + Concat(chunks) == x + y;
      CutAnywhere(x, y);
      HandledIsFrames(x, NEVER);
      TailHasNoFrames(x);
      FeedIsFrames(Tail(x), chunks[1..]);
    }
  }

  lemma {:induction false} TailHasNoFrames(s: string)
    requires WellFormed(s)
    ensures Frames(Tail(s)) == [] && Tail(Tail(s)) == Tail(s)
    decreases |s|
  {
    if s != [] && Find(s, '#', 1) < |s| {
      SuffixWellFormed(s, Find(s, '#', 1));
      TailHasNoFrames(s[Find(s, '#', 1)..]);
    }
  }

  // ---------- the senders' view ----------

  ghost predicate Plain(s: string) { Free(s, '#') && Free(s, '!') }

  /** What senders put on the wire: each message behind a '#' and closed by a '!'. */
  function Encode(messages: seq<string>): string {
    if messages == [] then [] else ['#'] + messages[0] + ['!'] + Encode(messages[1..])
  }

  function Marked(messages: seq<string>): seq<string> {
    seq(|messages|, i requires 0 <= i < |messages| => ['#'] + messages[i])
  }

  /** Nothing, or the beginning of a message. */
  ghost predicate Unfinished(t: string) { t == [] || (t[0] == '#' && Plain(t[1..])) }

  lemma {:induction false} EncodeIsWellFormed(messages: seq<string>, t: string)
    requires (forall i :: 0 <= i < |messages| ==> Plain(messages[i])) && Unfinished(t)
    ensures WellFormed(Encode(messages) + t)
    ensures Frames(Encode(messages) + t) == Marked(messages) && Tail(Encode(messages) + t) == t
    decreases |messages|
  {
    hide Find, Frames, Tail, WellFormed, Unfinished, Plain;
    if messages == [] {
      assert Encode(messages) + t == t;
      UnfinishedHasNoFrames(t);
    } else {
      var head, rest := ['#'] + messages[0] + ['!'], Encode(messages[1..]) + t;
      EncodeIsWellFormed(messages[1..], t);
      assert Encode(messages) + t == head + rest;
      OneFrame(messages[0], rest);
      assert Marked(messages) == [['#'] + messages[0]] + Marked(messages[1..]);
    }
  }

  lemma UnfinishedHasNoFrames(t: string)
    requires Unfinished(t)
    ensures WellFormed(t) && Frames(t) == [] && Tail(t) == t
  {
    if t != [] {
      forall i | 1 <= i < |t| ensures t[i] != '#' && t[i] != '!' { assert t[i] == t[1..][i - 1]; }
      FindUnique(t, '#', 1, |t|);
    }
  }

  lemma OneFrame(message: string, rest: string)
    requires Plain(message) && WellFormed(rest)
    ensures var s := ['#'] + message + ['!'] + rest;
      WellFormed(s) && Frames(s) == [['#'] + message] + Frames(rest) && Tail(s) == Tail(rest)
  {
    var n := |message| + 2;
    var s := ['#'] + message + ['!'] + rest;
    assert s[n..] == rest && s[..n - 1] == ['#'] + message && s[n - 1] == '!';
    forall i | 1 <= i < n - 1 ensures s[i] != '#' && s[i] != '!' { assert s[i] == message[i - 1]; }
    FindUnique(s, '#', 1, n);
    forall i | 0 <= i < |s| - 1 ensures s[i] == '!' <==> s[i + 1] == '#' {
      if i >= n { assert s[i] == rest[i - n] && s[i + 1] == rest[i + 1 - n]; }
    }
  }

  /**
   * Framing does not depend on how the stream is cut: however it is cut into chunks, exactly the sent messages are
   * handled, in order, and the buffer keeps exactly the unfinished end.
   */
  lemma AnyCutGivesTheFrames(messages: seq<string>, t: string, chunks: seq<string>)
    requires (forall i :: 0 <= i < |messages| ==> Plain(messages[i])) && Unfinished(t)
    requires Concat(chunks) == Encode(messages) + t
    ensures Feed([], chunks, NEVER) == Outcome(Marked(messages), t)
  {
    EncodeIsWellFormed(messages, t);
    assert [] + Concat(chunks) == Concat(chunks);
    FeedIsFrames([], chunks);
  }

  // ---------- refused frames ----------

  /** How many reads, other than the last one, end right after a frame that is refused in that read. */
  function Again(buffer: string, chunks: seq<string>, refuses: Refusal): nat
    decreases |chunks|
  {
    if |chunks| <= 1 then 0
    else
      var x := buffer + chunks[0];
      (if EndsRefused(x, [], refuses) then 1 else 0) + Again(Handled(x, refuses).rest, chunks[1..], refuses)
  }

  /** A refused frame at the end of a read is found once more in front of the next one. */
  lemma FoundAgain(x: string, y: string, refuses: Refusal)
    requires WellFormed(x + y) && EndsRefused(x, [], refuses)
    ensures var r := Kept(x, [], refuses);
      WellFormed(r + y) && Frames(x + y) == Frames(x) + Frames(y) && Frames(r + y) == [Frames(x)[|Frames(x)| - 1]] + Frames(y)
  {
    hide Find, Frames, Tail, WellFormed;
    CutAnywhere(x, y);
    EndsWithFrame(x);
    assert [] + y == y;
    var f := Frames(x)[|Frames(x)| - 1];
    OneFrame(f[1..], y);
    assert ['#'] + f[1..] == f;
  }

  lemma NotFoundAgain(x: string, y: string, refuses: Refusal)
    requires WellFormed(x + y) && !EndsRefused(x, [], refuses)
    ensures var r := Kept(x, [], refuses); WellFormed(r + y) && Frames(x + y) == Frames(x) + Frames(r + y)
  {
    CutAnywhere(x, y);
  }

  /** Every such read makes one frame more, and nothing else does. */
  lemma {:induction false} FeedCounts(buffer: string, chunks: seq<string>, refuses: Refusal)
    requires WellFormed(buffer + Concat(chunks)) && chunks != []
    ensures var fs := Feed(buffer, chunks, refuses).frames;
      && |fs| == |Frames(buffer + Concat(chunks))| + Again(buffer, chunks, refuses)
      && (Again(buffer, chunks, refuses) == 0 ==> fs == Frames(buffer + Concat(chunks)))
    decreases |chunks|
  {
    hide Find, Frames, Tail, WellFormed, Kept, EndsRefused, Handled;
    var x, y := buffer + chunks[0], Concat(chunks[1..]);
    assert buffer + Concat(chunks) == x + y;
    PrefixWellFormed(x, y);
    HandledIsFrames(x, refuses);
    if |chunks| == 1 {
      assert y == [] && x + y == x;
      assert Feed(Kept(x, [], refuses), chunks[1..], refuses).frames == [];
      assert Frames(x) + [] == Frames(x);
    } else {
      if EndsRefused(x, [], refuses) {
        FoundAgain(x, y, refuses);
      } else {
        NotFoundAgain(x, y, refuses);
      }
      FeedCounts(Kept(x, [], refuses), chunks[1..], refuses);
    }
  }

  /**
   * With handlers that refuse, exactly the sent messages are handed over if and only if no read but the last ends
   * right after a frame refused in that read: each of those is handed over once more with the next read.
   */
  lemma RefusedFramesComeAgain(messages: seq<string>, t: string, chunks: seq<string>, refuses: Refusal)
    requires (forall i :: 0 <= i < |messages| ==> Plain(messages[i])) && Unfinished(t)
    requires Concat(chunks) == Encode(messages) + t
    ensures var fs := Feed([], chunks, refuses).frames;
      && |fs| == |messages| + Again([], chunks, refuses)
      && (fs == Marked(messages) <==> Again([], chunks, refuses) == 0)
  {
    hide Frames, Tail, WellFormed, Plain, Unfinished;
    EncodeIsWellFormed(messages, t);
    assert [] + Concat(chunks) == Concat(chunks);
    if chunks != [] { FeedCounts([], chunks, refuses); }
  }
}
