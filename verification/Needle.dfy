/**
 The streaming needle counter of experiments/client-keyed-objects/client/cli.ts: a
 byte stream arrives in chunks of any size, and the occurrences of a needle are
 counted with a carried tail of the last `needle.length - 1` bytes.
 */
module Needle {

  type Bytes = seq<bv8>

  predicate MatchesAt(s: Bytes, needle: Bytes, p: nat) {
    p + |needle| <= |s| && s[p..p + |needle|] == needle
  }

  /** Occurrences, overlapping ones included, that start at `from` or later. */
  function CountFrom(s: Bytes, needle: Bytes, from: nat): nat
    decreases |s| - from
  {
    if from + |needle| > |s| || from >= |s| then 0
    else (if MatchesAt(s, needle, from) then 1 else 0) + CountFrom(s, needle, from + 1)
  }

  /** Occurrences of a needle in a whole byte string. */
  function Occurrences(s: Bytes, needle: Bytes): nat { CountFrom(s, needle, 0) }

  /** The needle stands at `p`, byte by byte. */
  ghost predicate StandsAt(s: Bytes, needle: Bytes, p: nat) {
    p + |needle| <= |s| && forall k :: 0 <= k < |needle| ==> s[p + k] == needle[k]
  }

  lemma {:induction false} MatchStands(s: Bytes, needle: Bytes, p: nat)
    ensures MatchesAt(s, needle, p) <==> StandsAt(s, needle, p)
  {
    if StandsAt(s, needle, p) { assert s[p..p + |needle|] == needle; }
    if MatchesAt(s, needle, p) {
      forall k | 0 <= k < |needle| ensures s[p + k] == needle[k] { assert s[p..p + |needle|][k] == needle[k]; }
    }
  }

  /** The positions at or after `from` where the needle stands. */
  ghost function Positions(s: Bytes, needle: Bytes, from: nat): set<nat> {
    set p: nat | from <= p < |s| && StandsAt(s, needle, p)
  }

  /** The count is the number of positions. */
  lemma {:induction false} CountIsPositions(s: Bytes, needle: Bytes, from: nat)
    requires |needle| > 0
    ensures CountFrom(s, needle, from) == |Positions(s, needle, from)|
    decreases |s| - from
  {
    if from + |needle| > |s| {
      assert Positions(s, needle, from) == {};
    } else {
      CountIsPositions(s, needle, from + 1);
      var rest := Positions(s, needle, from + 1);
      MatchStands(s, needle, from);
      if MatchesAt(s, needle, from) {
        assert Positions(s, needle, from) == rest + {from};
      } else {
        assert Positions(s, needle, from) == rest;
      }
    }
  }

  function Flatten(chunks: seq<Bytes>): Bytes {
    if chunks == [] then [] else Flatten(chunks[..|chunks| - 1]) + chunks[|chunks| - 1]
  }

  // ----- one buffer -----

  /** `indexOf`: the first match at `from` or later, or -1. */
  method IndexOf(s: Bytes, needle: Bytes, from: nat) returns (i: int)
    requires |needle| > 0
    ensures i == -1 || (from <= i && MatchesAt(s, needle, i))
    ensures i == -1 ==> forall p: nat :: from <= p ==> !MatchesAt(s, needle, p)
    ensures i != -1 ==> forall p: nat :: from <= p < i ==> !MatchesAt(s, needle, p)
  {
    var p := from;
    while p + |needle| <= |s|
      invariant from <= p
      invariant forall q: nat :: from <= q < p ==> !MatchesAt(s, needle, q)
      decreases |s| - p
    {
      if MatchesAt(s, needle, p) { return p; }
      p := p + 1;
    }
    return -1;
  }

  lemma {:induction false} SkipMisses(s: Bytes, needle: Bytes, from: nat, upTo: nat)
    requires |needle| > 0 && from <= upTo && forall p: nat :: from <= p < upTo ==> !MatchesAt(s, needle, p)
    ensures CountFrom(s, needle, from) == CountFrom(s, needle, upTo)
    decreases upTo
  {
    if from < upTo { SkipMisses(s, needle, from, upTo - 1); }
  }

  method CountBuffer(buf: Bytes, needle: Bytes) returns (hits: nat)
    requires |needle| > 0
    ensures hits == Occurrences(buf, needle)
  {
    hits := 0;
    var i := IndexOf(buf, needle, 0);
    ghost var from: nat := 0;
    while i != -1
      invariant from <= |buf| && (i == -1 || (from <= i && MatchesAt(buf, needle, i)))
      invariant i == -1 ==> forall p: nat :: from <= p ==> !MatchesAt(buf, needle, p)
      invariant i != -1 ==> forall p: nat :: from <= p < i ==> !MatchesAt(buf, needle, p)
      invariant hits + CountFrom(buf, needle, from) == Occurrences(buf, needle)
      decreases |buf| - from
    {
      SkipMisses(buf, needle, from, i);
      hits := hits + 1;
      from := i + 1;
      i := IndexOf(buf, needle, i + 1);
    }
    SkipMisses(buf, needle, from, |buf|);
  }

  // ----- across chunks -----

  lemma {:induction false} CountShift(pre: Bytes, s: Bytes, needle: Bytes, from: nat)
    requires |needle| > 0
    ensures CountFrom(pre + s, needle, |pre| + from) == CountFrom(s, needle, from)
    decreases |s| - from
  {
    if from + |needle| <= |s| {
      assert (pre + s)[|pre| + from..|pre| + from + |needle|] == s[from..from + |needle|];
      CountShift(pre, s, needle, from + 1);
    }
  }

  /** Matches that begin before `k` and end within the first `|s|` bytes do not see what follows. */
  lemma {:induction false} CountSplit(s: Bytes, more: Bytes, needle: Bytes, from: nat)
    requires |needle| > 0 && from + |needle| <= |s| + 1
    ensures CountFrom(s + more, needle, from)
         == CountFrom(s, needle, from) + CountFrom(s + more, needle, |s| + 1 - |needle|)
    decreases |s| - from
  {
    if from + |needle| <= |s| {
      assert (s + more)[from..from + |needle|] == s[from..from + |needle|];
      CountSplit(s, more, needle, from + 1);
    }
  }

  /** The last `needle.length - 1` bytes, or all of them. */
  function Tail(s: Bytes, n: nat): Bytes
    requires n > 0
  {
    if |s| < n then s else s[|s| - n + 1..]
  }

  /** Appending a chunk adds exactly the occurrences found in the carried tail plus the chunk. */
  lemma {:induction false} TailSuffices(s: Bytes, chunk: Bytes, needle: Bytes)
    requires |needle| > 0
    ensures Occurrences(s + chunk, needle) == Occurrences(s, needle) + Occurrences(Tail(s, |needle|) + chunk, needle)
    ensures Tail(Tail(s, |needle|) + chunk, |needle|) == Tail(s + chunk, |needle|)
  {
    var n := |needle|;
    if |s| >= n {
      var pre, tail := s[..|s| - n + 1], s[|s| - n + 1..];
      assert s == pre + tail && s + chunk == pre + (tail + chunk);
      CountSplit(s, chunk, needle, 0);
      CountShift(pre, tail + chunk, needle, 0);
    } else {
      assert CountFrom(s, needle, 0) == 0;
    }
  }

  /** One chunk: count in the carried tail plus the chunk, and carry the new tail. */
  method CountChunk(tail: Bytes, chunk: Bytes, needle: Bytes, ghost seen: Bytes) returns (found: nat, tail': Bytes)
    requires |needle| > 0 && tail == Tail(seen, |needle|)
    ensures Occurrences(seen + chunk, needle) == Occurrences(seen, needle) + found
    ensures tail' == Tail(seen + chunk, |needle|)
  {
    TailSuffices(seen, chunk, needle);
    var buf := tail + chunk;
    found := CountBuffer(buf, needle);
    tail' := buf[(if |buf| >= |needle| then |buf| - |needle| + 1 else 0)..];
  }

  /** The count does not depend on how the stream was cut into chunks; an empty needle counts as none given. */
  method CountStream(chunks: seq<Bytes>, needle: Bytes) returns (hits: nat, bytes: nat)
    ensures hits == if needle == [] then 0 else Occurrences(Flatten(chunks), needle)
    ensures bytes == |Flatten(chunks)|
  {
    hits, bytes := 0, 0;
    var tail: Bytes := [];
    for k := 0 to |chunks|
      invariant hits == if needle == [] then 0 else Occurrences(Flatten(chunks[..k]), needle)
      invariant bytes == |Flatten(chunks[..k])|
      invariant needle != [] ==> tail == Tail(Flatten(chunks[..k]), |needle|)
    {
      var chunk := chunks[k];
      assert chunks[..k + 1][..k] == chunks[..k];
      bytes := bytes + |chunk|;
      if needle != [] {
        var found;
        found, tail := CountChunk(tail, chunk, needle, Flatten(chunks[..k]));
        hits := hits + found;
      }
    }
    assert chunks[..|chunks|] == chunks;
  }
}
