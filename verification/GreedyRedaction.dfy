/** The reference meaning of redaction: one leftmost, longest-at-each-start pass
    over the whole byte stream, and how that pass behaves when cut in two. */
module GreedyRedaction {
  import opened Octets
  import opened Patterns
  import opened Sequences

  /** One step of the pass: a byte copied, or a pattern replaced by its token. */
  datatype Segment = Literal(value: byte) | Replaced(entry: PatternEntry) {
    function Raw(): Bytes {
      match this
      case Literal(b) => [b]
      case Replaced(p) => p.bytes
    }

    function Shown(): Bytes {
      match this
      case Literal(b) => [b]
      case Replaced(p) => p.token
    }
  }

  function RawAll(segs: seq<Segment>): Bytes {
    if segs == [] then [] else segs[0].Raw() + RawAll(segs[1..])
  }

  function ShownAll(segs: seq<Segment>): Bytes {
    if segs == [] then [] else segs[0].Shown() + ShownAll(segs[1..])
  }

  function MatchCount(segs: seq<Segment>): nat {
    if segs == [] then 0 else (if segs[0].Replaced? then 1 else 0) + MatchCount(segs[1..])
  }

  /** Bytes that replacement removed: pattern length minus token length, summed. */
  function Shrinkage(segs: seq<Segment>): int {
    if segs == [] then 0
    else (if segs[0].Replaced? then |segs[0].entry.bytes| - |segs[0].entry.token| else 0) + Shrinkage(segs[1..])
  }

  /** The step the pass takes at offset `i`. */
  function Head(d: Dictionary, s: Bytes, i: nat): (g: Segment)
    requires i < |s|
    ensures 0 < |g.Raw()| <= |s| - i
  {
    match LongestAt(d, s, i, |s|)
    case Some(p) => Replaced(p)
    case None => Literal(s[i])
  }

  lemma HeadReads(d: Dictionary, s: Bytes, i: nat)
    requires i < |s|
    ensures var g := Head(d, s, i); g.Raw() == s[i..i + |g.Raw()|]
    ensures var g := Head(d, s, i); g.Replaced? ==> g.entry in d
  {
    if LongestAt(d, s, i, |s|).Some? {
      LongestAtSound(d, s, i, |s|);
    }
  }

  /** The pass over `s` from offset `i` on. */
  function Segments(d: Dictionary, s: Bytes, i: nat): seq<Segment>
    decreases |s| - i
  {
    if i >= |s| then []
    else var g := Head(d, s, i); [g] + Segments(d, s, i + |g.Raw()|)
  }

  /** The redacted stream. */
  function Greedy(d: Dictionary, s: Bytes): Bytes {
    ShownAll(Segments(d, s, 0))
  }

  /** The part of the pass from `i` whose segments start before `stop`. */
  function Cut(d: Dictionary, s: Bytes, i: nat, stop: int): seq<Segment>
    decreases |s| - i
  {
    if i >= stop || i >= |s| then []
    else var g := Head(d, s, i); [g] + Cut(d, s, i + |g.Raw()|, stop)
  }

  /** Where that part ends: its last segment may reach beyond `stop`. */
  function CutEnd(d: Dictionary, s: Bytes, i: nat, stop: int): (k: nat)
    ensures k >= i
    ensures i <= |s| ==> k <= |s|
    ensures stop <= |s| ==> stop <= k
    decreases |s| - i
  {
    if i >= stop || i >= |s| then i
    else CutEnd(d, s, i + |Head(d, s, i).Raw()|, stop)
  }

  lemma {:induction false} RawOfCut(d: Dictionary, s: Bytes, i: nat, stop: int)
    requires i <= |s|
    ensures RawAll(Cut(d, s, i, stop)) == s[i..CutEnd(d, s, i, stop)]
    decreases |s| - i
  {
    hide LongestAt;
    if i >= stop || i >= |s| {
    } else {
      var g := Head(d, s, i);
      var j := i + |g.Raw()|;
      RawOfCut(d, s, j, stop);
      HeadReads(d, s, i);
      assert s[i..CutEnd(d, s, i, stop)] == s[i..j] + s[j..CutEnd(d, s, i, stop)];
    }
  }

  /** With `stop` at the end, the cut part is the whole pass. */
  lemma {:induction false} CutOfAll(d: Dictionary, s: Bytes, i: nat)
    ensures Cut(d, s, i, |s|) == Segments(d, s, i)
    decreases |s| - i
  {
    hide Head;
    if i >= |s| {
    } else {
      var g := Head(d, s, i);
      CutOfAll(d, s, i + |g.Raw()|);
      assert Cut(d, s, i, |s|) == [g] + Cut(d, s, i + |g.Raw()|, |s|);
    }
  }

  lemma {:induction false} Appended(a: seq<Segment>, b: seq<Segment>)
    ensures RawAll(a + b) == RawAll(a) + RawAll(b)
    ensures ShownAll(a + b) == ShownAll(a) + ShownAll(b)
    ensures MatchCount(a + b) == MatchCount(a) + MatchCount(b)
    ensures Shrinkage(a + b) == Shrinkage(a) + Shrinkage(b)
  {
    if a == [] {
      assert a + b == b;
    } else {
      assert (a + b)[0] == a[0] && (a + b)[1..] == a[1..] + b;
      Appended(a[1..], b);
      ConcatAssociative(a[0].Raw(), RawAll(a[1..]), RawAll(b));
      ConcatAssociative(a[0].Shown(), ShownAll(a[1..]), ShownAll(b));
    }
  }

  /** The count is that of the replaced segments, each once. */
  lemma {:induction false} MatchCountCounts(segs: seq<Segment>)
    ensures MatchCount(segs) == |set i | 0 <= i < |segs| && segs[i].Replaced?|
  {
    var here := set i | 0 <= i < |segs| && segs[i].Replaced?;
    if segs == [] {
      assert here == {};
    } else {
      var init, n := segs[..|segs| - 1], |segs| - 1;
      var before := set i | 0 <= i < n && init[i].Replaced?;
      assert segs == init + [segs[n]];
      Appended(init, [segs[n]]);
      MatchCountCounts(init);
      assert MatchCount([segs[n]]) == if segs[n].Replaced? then 1 else 0;
      hide MatchCount;
      assert here == before + if segs[n].Replaced? then {n} else {};
    }
  }

  /** Length accounting: what went in is what came out plus what replacement removed. */
  lemma {:induction false} Lengths(segs: seq<Segment>)
    ensures |RawAll(segs)| == |ShownAll(segs)| + Shrinkage(segs)
  {
    if segs == [] {
    } else {
      Lengths(segs[1..]);
    }
  }

  lemma HeadOfSuffix(d: Dictionary, s: Bytes, i: nat, at: nat)
    requires i <= at < |s|
    ensures Head(d, s[i..], at - i) == Head(d, s, at)
  {
    LongestAtReadsOnly(d, s, at, |s|, s[i..], at - i);
  }

  /** The pass from an offset is the pass over the suffix at that offset. */
  lemma {:induction false} SegmentsOfSuffix(d: Dictionary, s: Bytes, i: nat, at: nat)
    requires i <= at <= |s|
    ensures Segments(d, s, at) == Segments(d, s[i..], at - i)
    decreases |s| - at
  {
    hide Head;
    if at >= |s| {
    } else {
      HeadOfSuffix(d, s, i, at);
      SegmentsOfSuffix(d, s, i, at + |Head(d, s, at).Raw()|);
    }
  }

  lemma HeadIsLocal(d: Dictionary, bound: nat, s: Bytes, i: nat, t: Bytes)
    requires Bounded(d, bound) && i < |s| && i + bound <= |s|
    ensures Head(d, s + t, i) == Head(d, s, i)
  {
    LongestAtIsLocal(d, bound, s + t, i, |s|, |s + t|);
    LongestAtReadsOnly(d, s, i, |s|, s + t, i);
  }

  /** Cutting the stream at any point that leaves a full pattern length minus one
      of look-ahead is invisible: whatever bytes `t` follow, the pass over the
      whole goes through the cut part and arrives at its end. */
  lemma {:induction false} CutIsInvisible(d: Dictionary, bound: nat, s: Bytes, i: nat, stop: int, t: Bytes)
    requires Bounded(d, bound) && i <= |s| && (i < stop ==> stop + bound - 1 <= |s|)
    ensures Segments(d, s + t, i) == Cut(d, s, i, stop) + Segments(d, s + t, CutEnd(d, s, i, stop))
    decreases |s| - i
  {
    hide Head;
    if i >= stop || i >= |s| {
    } else {
      var g := Head(d, s, i);
      var j := i + |g.Raw()|;
      var cut, rest := Cut(d, s, j, stop), Segments(d, s + t, CutEnd(d, s, j, stop));
      HeadIsLocal(d, bound, s, i, t);
      CutIsInvisible(d, bound, s, j, stop, t);
      assert Segments(d, s + t, i) == [g] + Segments(d, s + t, j);
      assert CutEnd(d, s, i, stop) == CutEnd(d, s, j, stop);
      assert Cut(d, s, i, stop) == [g] + cut;
      ConcatAssociative([g], cut, rest);
    }
  }
}
