/** Splitting messages into fields. */
module Fields {
  import opened Prelude

  /** The position of the first `c` at or after `from`, or the end. */
  function Find(s: string, c: char, from: nat): (p: nat)
    requires from <= |s|
    ensures from <= p <= |s| && (p < |s| ==> s[p] == c) && forall i :: from <= i < p ==> s[i] != c
    decreases |s| - from
  {
    if from == |s| || s[from] == c then from else Find(s, c, from + 1)
  }

  /** The fields from position `prev` on; an empty field at the very end is not reported. */
  function SplitFrom(s: string, c: char, prev: nat): seq<string>
    requires prev <= |s|
    decreases |s| - prev
  {
    var pos := Find(s, c, prev);
    [s[prev..pos]] + if pos < |s| && pos + 1 < |s| then SplitFrom(s, c, pos + 1) else []
  }

  function SplitOn(s: string, c: char): seq<string> {
    SplitFrom(s, c, 0)
  }

  /** One field more. */
  lemma SplitUnfold(s: string, c: char, prev: nat, pos: nat)
    requires prev <= |s| && pos == Find(s, c, prev)
    ensures SplitFrom(s, c, prev) == [s[prev..pos]] + if pos + 1 < |s| then SplitFrom(s, c, pos + 1) else []
  {
  }

  lemma AppendOne<T>(a: seq<T>, x: T, b: seq<T>)
    ensures (a + [x]) + b == a + ([x] + b) && (b == [] ==> a + ([x] + b) == a + [x])
  {
  }

  method Split(s: string, c: char) returns (tokens: seq<string>)
    ensures tokens == SplitOn(s, c)
  {
    hide Find, SplitFrom;
    tokens := [];
    var prev, pos := 0, 0;
    var more := true;
    while more
      invariant prev <= |s| || !more
      invariant more ==> tokens + SplitFrom(s, c, prev) == SplitOn(s, c)
      invariant !more ==> tokens == SplitOn(s, c)
      decreases more, |s| - prev
    {
      pos := Find(s, c, prev);
      SplitUnfold(s, c, prev, pos);
      AppendOne(tokens, s[prev..pos], if pos + 1 < |s| then SplitFrom(s, c, pos + 1) else []);
      tokens := tokens + [s[prev..pos]];
      prev := pos + 1;
      more := pos < |s| && prev < |s|;
    }
  }

  function Join(fields: seq<string>, c: char): string {
    if fields == [] then [] else if |fields| == 1 then fields[0] else fields[0] + [c] + Join(fields[1..], c)
  }

  ghost predicate Free(s: string, c: char) { forall i :: 0 <= i < |s| ==> s[i] != c }

  lemma {:induction false} FindUnique(s: string, c: char, from: nat, p: nat)
    requires from <= p <= |s| && (p < |s| ==> s[p] == c) && forall i :: from <= i < p ==> s[i] != c
    ensures Find(s, c, from) == p
    decreases p - from
  {
    if from < p {
      FindUnique(s, c, from + 1, p);
    }
  }

  /** Splitting only looks at what is left. */
  lemma {:induction false} SplitTail(s: string, c: char, prev: nat)
    requires prev <= |s|
    ensures SplitFrom(s, c, prev) == SplitFrom(s[prev..], c, 0)
    decreases |s| - prev
  {
    hide Find, SplitFrom;
    var t, pos := s[prev..], Find(s, c, prev);
    var q := pos - prev;
    SplitUnfold(s, c, prev, pos);
    SplitUnfold(t, c, 0, q);
    assert s[prev..pos] == t[0..q];
    if pos + 1 < |s| {
      assert t[q + 1..] == s[pos + 1..];
      SplitTail(s, c, pos + 1);
      SplitTail(t, c, q + 1);
    }
  }

  /** The first field of a joined text. */
  lemma SplitFirst(head: string, c: char, tail: string)
    requires Free(head, c)
    ensures SplitOn(head + [c] + tail, c) == [head] + if tail == [] then [] else SplitOn(tail, c)
  {
    var s := head + [c] + tail;
    FindUnique(s, c, 0, |head|);
    assert s[0..|head|] == head;
    if tail != [] {
      SplitTail(s, c, |head| + 1);
      assert s[|head| + 1..] == tail;
    }
  }

  /**
   * Exactly when splitting undoes joining fields without separators: there is one field, or the last one is
   * not empty.  Otherwise only the last one is missing.
   */
  lemma {:induction false} SplitJoin(fields: seq<string>, c: char)
    requires fields != [] && forall i :: 0 <= i < |fields| ==> Free(fields[i], c)
    ensures SplitOn(Join(fields, c), c) == fields <==> |fields| == 1 || fields[|fields| - 1] != []
    ensures |fields| > 1 && fields[|fields| - 1] == [] ==> SplitOn(Join(fields, c), c) == fields[..|fields| - 1]
    decreases |fields|
  {
    var head := fields[0];
    if |fields| == 1 {
      FindUnique(head, c, 0, |head|);
      assert head[0..|head|] == head;
    } else {
      var rest := fields[1..];
      SplitFirst(head, c, Join(rest, c));
      forall i | 0 <= i < |rest| ensures Free(rest[i], c) { assert rest[i] == fields[i + 1]; }
      SplitJoin(rest, c);
      assert fields == [head] + rest;
      var split := SplitOn(Join(fields, c), c);
      assert split[1..] == if Join(rest, c) == [] then [] else SplitOn(Join(rest, c), c);
    }
  }
}
