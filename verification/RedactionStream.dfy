/** The redactor as a state machine over chunks, and what holds of whole runs:
    the bytes released are those of one greedy pass over the whole stream, however
    the stream was cut, up to the point where the audit halts it, if it ever does. */
module RedactionStream {
  import opened Octets
  import opened Wrappers
  import opened Sequences
  import opened Patterns
  import opened GreedyRedaction
  import opened ConfinementAudit

  /** A compiled dictionary. `maxPatternLen` never shrinks when dictionaries are
      swapped, so it bounds the pattern lengths without always being attained. */
  datatype Rules = Rules(patterns: Dictionary, maxPatternLen: nat)

  ghost predicate ValidRules(r: Rules) {
    WellFormed(r.patterns) && Bounded(r.patterns, r.maxPatternLen)
  }

  datatype Metrics = Metrics(matchCount: nat, bytesProcessed: nat, bytesEmitted: nat, confinementViolations: nat)

  datatype Stream = Stream(carryover: Bytes, halted: bool, metrics: Metrics)

  const FRESH := Stream([], false, Metrics(0, 0, 0, 0))

  /** The sliding buffer size, `getBufferSize`. */
  function BufferSize(r: Rules): nat {
    if r.maxPatternLen == 0 then 0 else r.maxPatternLen - 1
  }

  /** Where the scan of `combined` must stop looking for new matches. */
  function StopAt(r: Rules, combined: Bytes): int {
    |combined| - (if r.maxPatternLen - 1 < |combined| then r.maxPatternLen - 1 else |combined|)
  }

  /** Release the segments `segs`, unless the audit objects. */
  function Release(r: Rules, st: Stream, segs: seq<Segment>): (Stream, Bytes) {
    var out := ShownAll(segs);
    var m := st.metrics.(bytesEmitted := st.metrics.bytesEmitted + |out|,
                         matchCount := st.metrics.matchCount + MatchCount(segs));
    if FirstViolation(r.patterns, out, 0).Some? then
      (st.(halted := true, metrics := m.(confinementViolations := m.confinementViolations + 1)), [])
    else
      (st.(metrics := m), out)
  }

  /** The segments a call scans, when it is not halted. */
  function StepSegments(r: Rules, st: Stream, chunk: Bytes): seq<Segment> {
    var combined := st.carryover + chunk;
    if r.patterns == [] then Cut([], chunk, 0, |chunk|)
    else Cut(r.patterns, combined, 0, StopAt(r, combined))
  }

  /** The raw bytes a call keeps for the next one. */
  function StepCarryover(r: Rules, st: Stream, chunk: Bytes): Bytes {
    var combined := st.carryover + chunk;
    if r.patterns == [] then st.carryover
    else combined[CutEnd(r.patterns, combined, 0, StopAt(r, combined))..]
  }

  function Process(r: Rules, st: Stream, chunk: Bytes): (Stream, Bytes) {
    if st.halted then (st, [])
    else
      var m := st.metrics.(bytesProcessed := st.metrics.bytesProcessed + |chunk|);
      if r.patterns == [] then
        (st.(metrics := m.(bytesEmitted := m.bytesEmitted + |chunk|)), chunk)
      else
        var kept := st.(carryover := StepCarryover(r, st, chunk), metrics := m);
        if StopAt(r, st.carryover + chunk) <= 0 then (kept, [])
        else Release(r, kept, StepSegments(r, st, chunk))
  }

  function Flush(r: Rules, st: Stream): (Stream, Bytes) {
    if st.halted || st.carryover == [] then (st, [])
    else if r.patterns == [] then
      (st.(carryover := [], metrics := st.metrics.(bytesEmitted := st.metrics.bytesEmitted + |st.carryover|)), st.carryover)
    else
      Release(r, st.(carryover := []), Cut(r.patterns, st.carryover, 0, |st.carryover|))
  }

  /** A run of `process` calls: the final state and the buffers returned. */
  function Run(r: Rules, st: Stream, chunks: seq<Bytes>): (Stream, seq<Bytes>)
    decreases |chunks|
  {
    if chunks == [] then (st, [])
    else
      var (st1, out) := Process(r, st, chunks[0]);
      var (st2, outs) := Run(r, st1, chunks[1..]);
      (st2, [out] + outs)
  }

  /** A whole stream: its chunks, then `flush`. */
  function RunToEnd(r: Rules, chunks: seq<Bytes>): (Stream, seq<Bytes>) {
    var (st, outs) := Run(r, FRESH, chunks);
    var (end, out) := Flush(r, st);
    (end, outs + [out])
  }

  /** The state of an un-halted stream that has received `received` and released
      `segs`: the carryover is the unread raw suffix, it starts where the pass over
      the whole stream also arrives, whatever bytes follow, and the counters balance. */
  ghost predicate Tracks(r: Rules, st: Stream, received: Bytes, segs: seq<Segment>) {
    && !st.halted
    && received == RawAll(segs) + st.carryover
    && (forall t :: Segments(r.patterns, received + t, 0) == segs + Segments(r.patterns, st.carryover + t, 0))
    && |st.carryover| <= BufferSize(r)
    && (r.patterns == [] ==> st.carryover == [])
    && st.metrics == Metrics(MatchCount(segs), |received|, |ShownAll(segs)|, 0)
  }

  lemma FreshTracks(r: Rules)
    ensures Tracks(r, FRESH, [], [])
  {
    forall t ensures Segments(r.patterns, [] + t, 0) == [] + Segments(r.patterns, [] + t, 0) {
    }
  }

  /** Scanning part of a buffer and keeping the rest, as one equation. */
  lemma CutLeavesRest(d: Dictionary, bound: nat, s: Bytes, stop: int, t: Bytes)
    requires Bounded(d, bound) && 0 < stop && stop + bound - 1 <= |s|
    ensures Segments(d, s + t, 0) == Cut(d, s, 0, stop) + Segments(d, s[CutEnd(d, s, 0, stop)..] + t, 0)
    ensures s == RawAll(Cut(d, s, 0, stop)) + s[CutEnd(d, s, 0, stop)..]
  {
    hide Head;
    hide CutEnd;
    var k := CutEnd(d, s, 0, stop);
    CutIsInvisible(d, bound, s, 0, stop, t);
    SegmentsOfSuffix(d, s + t, k, k);
    assert (s + t)[k..] == s[k..] + t;
    RawOfCut(d, s, 0, stop);
    assert s == s[..k] + s[k..];
  }

  lemma {:induction false} EmptyDictionaryCopies(s: Bytes, i: nat)
    requires i <= |s|
    ensures ShownAll(Segments([], s, i)) == s[i..]
    ensures RawAll(Segments([], s, i)) == s[i..]
    ensures MatchCount(Segments([], s, i)) == 0
    decreases |s| - i
  {
    if i >= |s| {
    } else {
      NothingInEmptyDictionary(s, i, |s|);
      EmptyDictionaryCopies(s, i + 1);
      assert s[i..] == [s[i]] + s[i + 1..];
    }
  }

  lemma {:induction false} NothingInEmptyDictionary(s: Bytes, i: nat, end: nat)
    requires i <= end <= |s|
    ensures LongestAt([], s, i, end) == None
  {
    if i == end {
    } else {
      NothingInEmptyDictionary(s, i, end - 1);
    }
  }

  /** One call, as one equation over whatever bytes follow. */
  lemma StepIsInvisible(r: Rules, st: Stream, chunk: Bytes, t: Bytes)
    requires ValidRules(r) && (r.patterns == [] ==> st.carryover == [])
    ensures st.carryover + chunk == RawAll(StepSegments(r, st, chunk)) + StepCarryover(r, st, chunk)
    ensures Segments(r.patterns, st.carryover + chunk + t, 0)
         == StepSegments(r, st, chunk) + Segments(r.patterns, StepCarryover(r, st, chunk) + t, 0)
  {
    hide Head;
    hide CutEnd;
    var combined := st.carryover + chunk;
    var stop := StopAt(r, combined);
    if r.patterns == [] {
      assert combined == chunk;
      if chunk != [] {
        CutLeavesRest([], 0, chunk, |chunk|, t);
        assert chunk[CutEnd([], chunk, 0, |chunk|)..] == [];
      }
    } else if stop <= 0 {
      NothingBefore(r.patterns, combined, stop);
      assert combined[0..] == combined;
    } else {
      CutLeavesRest(r.patterns, r.maxPatternLen, combined, stop, t);
    }
  }

  lemma NothingBefore(d: Dictionary, s: Bytes, stop: int)
    requires stop <= 0
    ensures Cut(d, s, 0, stop) == [] && CutEnd(d, s, 0, stop) == 0
  {
  }

  /** What an un-halted call does to the state. */
  lemma StepShape(r: Rules, st: Stream, chunk: Bytes)
    requires !st.halted && (r.patterns == [] ==> st.carryover == [])
    ensures var (st', out) := Process(r, st, chunk);
            var more := StepSegments(r, st, chunk);
            var m := st.metrics;
            if st'.halted then out == []
            else
              && out == ShownAll(more)
              && st' == Stream(StepCarryover(r, st, chunk), false,
                               Metrics(m.matchCount + MatchCount(more), m.bytesProcessed + |chunk|,
                                       m.bytesEmitted + |ShownAll(more)|, m.confinementViolations))
  {
    hide Head;
    hide CutEnd;
    var combined := st.carryover + chunk;
    if r.patterns == [] {
      CutOfAll([], chunk, 0);
      EmptyDictionaryCopies(chunk, 0);
    } else if StopAt(r, combined) <= 0 {
      NothingBefore(r.patterns, combined, StopAt(r, combined));
    }
  }

  lemma CarryoverIsShort(r: Rules, st: Stream, chunk: Bytes)
    requires r.patterns == [] ==> st.carryover == []
    requires r.patterns != [] ==> r.maxPatternLen > 0
    ensures |StepCarryover(r, st, chunk)| <= BufferSize(r)
    ensures r.patterns != [] ==> |StepCarryover(r, st, chunk)| < r.maxPatternLen
    ensures BufferSize(r) == if r.maxPatternLen > 0 then r.maxPatternLen - 1 else 0
  {
    hide Head;
  }

  /** The whole-stream equation after one more call. */
  lemma StepExtends(r: Rules, st: Stream, received: Bytes, segs: seq<Segment>, chunk: Bytes, t: Bytes)
    requires ValidRules(r) && Tracks(r, st, received, segs)
    ensures Segments(r.patterns, received + chunk + t, 0)
         == (segs + StepSegments(r, st, chunk)) + Segments(r.patterns, StepCarryover(r, st, chunk) + t, 0)
    ensures received + chunk == RawAll(segs + StepSegments(r, st, chunk)) + StepCarryover(r, st, chunk)
  {
    hide StepSegments;
    hide StepCarryover;
    hide Segments;
    hide RawAll;
    var more := StepSegments(r, st, chunk);
    var kept := StepCarryover(r, st, chunk);
    StepIsInvisible(r, st, chunk, t);
    ConcatAssociative(received, chunk, t);
    ConcatAssociative(st.carryover, chunk, t);
    ConcatAssociative(segs, more, Segments(r.patterns, kept + t, 0));
    Appended(segs, more);
    ConcatAssociative(RawAll(segs), st.carryover, chunk);
    ConcatAssociative(RawAll(segs), RawAll(more), kept);
  }

  /** Every un-halted call keeps `Tracks`; a call that halts returns nothing. */
  lemma StepTracks(r: Rules, st: Stream, received: Bytes, segs: seq<Segment>, chunk: Bytes)
    requires ValidRules(r) && Tracks(r, st, received, segs)
    ensures var (st', out) := Process(r, st, chunk);
            var more := StepSegments(r, st, chunk);
            if st'.halted then out == []
            else out == ShownAll(more) && Tracks(r, st', received + chunk, segs + more)
  {
    hide Process;
    hide StepSegments;
    hide StepCarryover;
    StepShape(r, st, chunk);
    Appended(segs, StepSegments(r, st, chunk));
    StepExtends(r, st, received, segs, chunk, []);
    forall t
      ensures Segments(r.patterns, received + chunk + t, 0)
           == (segs + StepSegments(r, st, chunk)) + Segments(r.patterns, StepCarryover(r, st, chunk) + t, 0)
    {
      StepExtends(r, st, received, segs, chunk, t);
    }
    if r.patterns == [] {
      EmptyKeeps(r, st, chunk);
    } else {
      PositiveBound(r);
    }
    CarryoverIsShort(r, st, chunk);
  }

  lemma EmptyKeeps(r: Rules, st: Stream, chunk: Bytes)
    requires r.patterns == []
    ensures StepCarryover(r, st, chunk) == st.carryover
  {
  }

  lemma PositiveBound(r: Rules)
    requires ValidRules(r) && r.patterns != []
    ensures r.maxPatternLen > 0
  {
    assert r.patterns[0].bytes != [];
  }
}
