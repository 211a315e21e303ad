/** Theorems about whole streams: chunking is invisible, only clean buffers leave,
    and the counters balance for as long as the stream is not halted. */
module StreamTheorems {
  import opened Octets
  import opened Sequences
  import opened Patterns
  import opened GreedyRedaction
  import opened ConfinementAudit
  import opened RedactionStream

  lemma {:induction false} HaltedStaysSilent(r: Rules, st: Stream, chunks: seq<Bytes>)
    requires st.halted
    ensures Run(r, st, chunks).0 == st
    ensures Flatten(Run(r, st, chunks).1) == []
    ensures forall out :: out in Run(r, st, chunks).1 ==> out == []
    decreases |chunks|
  {
    if chunks == [] {
    } else {
      HaltedStaysSilent(r, st, chunks[1..]);
    }
  }

  /** A run releases an initial part of the pass over everything it is given, and
      keeps tracking that pass for as long as it is not halted. */
  lemma {:induction false} RunTracks(r: Rules, st: Stream, chunks: seq<Bytes>, received: Bytes, segs: seq<Segment>)
    returns (more: seq<Segment>, rest: seq<Segment>)
    requires ValidRules(r) && Tracks(r, st, received, segs)
    ensures Flatten(Run(r, st, chunks).1) == ShownAll(more)
    ensures !Run(r, st, chunks).0.halted ==> Tracks(r, Run(r, st, chunks).0, received + Flatten(chunks), segs + more)
    ensures Segments(r.patterns, received + Flatten(chunks), 0) == segs + more + rest
    decreases |chunks|
  {
    hide Process;
    hide Segments;
    hide StepSegments;
    if chunks == [] {
      more, rest := [], Segments(r.patterns, st.carryover + [], 0);
      assert received + [] == received && segs + [] == segs;
    } else {
      var st1 := Process(r, st, chunks[0]).0;
      var step := StepSegments(r, st, chunks[0]);
      StepTracks(r, st, received, segs, chunks[0]);
      ConcatAssociative(received, chunks[0], Flatten(chunks[1..]));
      if st1.halted {
        HaltedStaysSilent(r, st1, chunks[1..]);
        more, rest := [], Segments(r.patterns, st.carryover + Flatten(chunks), 0);
        assert segs + [] == segs;
      } else {
        var more';
        more', rest := RunTracks(r, st1, chunks[1..], received + chunks[0], segs + step);
        more := step + more';
        ConcatAssociative(segs, step, more');
        Appended(step, more');
      }
    }
  }

  /** What an un-halted `flush` does: it releases the pass over the carryover. */
  lemma FlushShape(r: Rules, st: Stream)
    requires ValidRules(r) && !st.halted && (r.patterns == [] ==> st.carryover == [])
    ensures var (end, out) := Flush(r, st);
            var last := Segments(r.patterns, st.carryover, 0);
            if end.halted then out == []
            else
              && out == ShownAll(last)
              && end == Stream([], false,
                               Metrics(st.metrics.matchCount + MatchCount(last), st.metrics.bytesProcessed,
                                       st.metrics.bytesEmitted + |ShownAll(last)|, st.metrics.confinementViolations))
  {
    hide Head;
    CutOfAll(r.patterns, st.carryover, 0);
  }

  /** The bytes that reach the client are always an initial part of the greedy
      redaction of the stream, and all of it unless the stream was halted. */
  lemma ChunkingIsInvisible(r: Rules, chunks: seq<Bytes>)
    requires ValidRules(r)
    ensures var (end, outs) := RunToEnd(r, chunks);
            && Flatten(outs) <= Greedy(r.patterns, Flatten(chunks))
            && (!end.halted ==> Flatten(outs) == Greedy(r.patterns, Flatten(chunks)))
  {
    hide Segments;
    hide Process;
    hide Flush;
    FreshTracks(r);
    var more, rest := RunTracks(r, FRESH, chunks, [], []);
    var (st, outs) := Run(r, FRESH, chunks);
    assert [] + Flatten(chunks) == Flatten(chunks) && [] + more == more;
    Appended(more, rest);
    FlattenAppend(outs, Flush(r, st).1);
    if st.halted {
      HaltedFlush(r, st);
    } else {
      FlushShape(r, st);
      assert Flatten(chunks) + [] == Flatten(chunks) && st.carryover + [] == st.carryover;
      assert Segments(r.patterns, Flatten(chunks) + [], 0) == more + Segments(r.patterns, st.carryover + [], 0);
      Appended(more, Segments(r.patterns, st.carryover, 0));
    }
  }

  lemma HaltedFlush(r: Rules, st: Stream)
    requires st.halted
    ensures Flush(r, st) == (st, [])
  {
  }

  /** Any two ways of cutting the same bytes give the same output, unless one is halted. */
  lemma AnyTwoChunkingsAgree(r: Rules, a: seq<Bytes>, b: seq<Bytes>)
    requires ValidRules(r) && Flatten(a) == Flatten(b)
    requires !RunToEnd(r, a).0.halted && !RunToEnd(r, b).0.halted
    ensures Flatten(RunToEnd(r, a).1) == Flatten(RunToEnd(r, b).1)
  {
    ChunkingIsInvisible(r, a);
    ChunkingIsInvisible(r, b);
  }

  /** In every un-halted state the counters balance: bytes in are bytes out, plus
      bytes held back, plus what the counted replacements removed. */
  lemma CountersBalance(r: Rules, chunks: seq<Bytes>) returns (segs: seq<Segment>)
    requires ValidRules(r) && !Run(r, FRESH, chunks).0.halted
    ensures var (st, outs) := Run(r, FRESH, chunks);
            && Tracks(r, st, Flatten(chunks), segs)
            && Flatten(outs) == ShownAll(segs)
            && st.metrics.bytesProcessed == st.metrics.bytesEmitted + |st.carryover| + Shrinkage(segs)
            && st.metrics.matchCount == MatchCount(segs)
  {
    hide Segments;
    hide Process;
    FreshTracks(r);
    var rest;
    segs, rest := RunTracks(r, FRESH, chunks, [], []);
    assert [] + Flatten(chunks) == Flatten(chunks) && [] + segs == segs;
    Lengths(segs);
  }

  /** A call on one stream. `flush` may come anywhere, and be followed by more chunks. */
  datatype StreamCall = Feed(chunk: Bytes) | Finish

  /** The bytes that a list of calls brings in. */
  function Fed(calls: seq<StreamCall>): Bytes {
    if calls == [] then []
    else Fed(calls[..|calls| - 1]) + match calls[|calls| - 1] case Feed(chunk) => chunk case Finish => []
  }

  /** The state after a list of calls, and the bytes returned so far. */
  function After(r: Rules, calls: seq<StreamCall>): (Stream, Bytes) {
    if calls == [] then (FRESH, [])
    else
      var (st, sent) := After(r, calls[..|calls| - 1]);
      var (st', out) := match calls[|calls| - 1] case Feed(chunk) => Process(r, st, chunk) case Finish => Flush(r, st);
      (st', sent + out)
  }

  /** `segs` accounts for every byte that came in and every byte that went out, and the
      counters say so. */
  ghost predicate Balanced(r: Rules, st: Stream, fed: Bytes, sent: Bytes, segs: seq<Segment>) {
    && (r.patterns == [] ==> st.carryover == [])
    && fed == RawAll(segs) + st.carryover
    && sent == ShownAll(segs)
    && st.metrics == Metrics(MatchCount(segs), |fed|, |sent|, 0)
    && st.metrics.bytesProcessed == st.metrics.bytesEmitted + |st.carryover| + Shrinkage(segs)
  }

  lemma FeedBalances(r: Rules, st: Stream, fed: Bytes, sent: Bytes, segs: seq<Segment>, chunk: Bytes)
    requires ValidRules(r) && Balanced(r, st, fed, sent, segs) && !st.halted && !Process(r, st, chunk).0.halted
    ensures var (st', out) := Process(r, st, chunk);
            Balanced(r, st', fed + chunk, sent + out, segs + StepSegments(r, st, chunk))
  {
    hide StepSegments;
    hide StepCarryover;
    hide Process;
    hide Segments;
    hide RawAll;
    hide ShownAll;
    hide MatchCount;
    hide Shrinkage;
    var more := StepSegments(r, st, chunk);
    StepShape(r, st, chunk);
    StepIsInvisible(r, st, chunk, []);
    Appended(segs, more);
    Lengths(more);
    ConcatAssociative(RawAll(segs), st.carryover, chunk);
    ConcatAssociative(RawAll(segs), RawAll(more), StepCarryover(r, st, chunk));
    if r.patterns == [] {
      EmptyKeeps(r, st, chunk);
    }
  }

  lemma FinishBalances(r: Rules, st: Stream, fed: Bytes, sent: Bytes, segs: seq<Segment>)
    requires ValidRules(r) && Balanced(r, st, fed, sent, segs) && !st.halted && !Flush(r, st).0.halted
    ensures var (st', out) := Flush(r, st);
            Balanced(r, st', fed, sent + out, segs + Segments(r.patterns, st.carryover, 0))
  {
    hide Head;
    hide Flush;
    var last := Segments(r.patterns, st.carryover, 0);
    FlushShape(r, st);
    Appended(segs, last);
    Lengths(last);
    CutOfAll(r.patterns, st.carryover, 0);
    RawOfCut(r.patterns, st.carryover, 0, |st.carryover|);
    assert st.carryover[0..|st.carryover|] == st.carryover;
    assert fed == RawAll(segs + last) + [];
  }

  /** Conservation in every un-halted state, whatever calls led there. */
  lemma {:induction false} EveryStateBalances(r: Rules, calls: seq<StreamCall>) returns (segs: seq<Segment>)
    requires ValidRules(r) && !After(r, calls).0.halted
    ensures Balanced(r, After(r, calls).0, Fed(calls), After(r, calls).1, segs)
    decreases |calls|
  {
    hide Process;
    hide Flush;
    hide Balanced;
    if calls == [] {
      segs := [];
      FreshBalances(r);
    } else {
      var init := calls[..|calls| - 1];
      var (st, sent) := After(r, init);
      StaysHalted(r, st);
      segs := EveryStateBalances(r, init);
      match calls[|calls| - 1] {
        case Feed(chunk) =>
          FeedBalances(r, st, Fed(init), sent, segs, chunk);
          segs := segs + StepSegments(r, st, chunk);
        case Finish =>
          FinishBalances(r, st, Fed(init), sent, segs);
          segs := segs + Segments(r.patterns, st.carryover, 0);
          assert Fed(calls) == Fed(init);
      }
    }
  }

  lemma FreshBalances(r: Rules)
    ensures Balanced(r, FRESH, [], [], [])
  {
  }

  lemma StaysHalted(r: Rules, st: Stream)
    ensures st.halted ==> forall chunk :: Process(r, st, chunk).0.halted
    ensures st.halted ==> Flush(r, st).0.halted
  {
  }

  // ---- Nothing unclean leaves -------------------------------------------------

  lemma AuditDecides(d: Dictionary, out: Bytes)
    requires WellFormed(d)
    ensures FirstViolation(d, out, 0).None? <==> PatternFree(d, out)
  {
    AuditIsExact(d, out, 0);
  }

  lemma EmptyIsPatternFree(d: Dictionary)
    requires WellFormed(d)
    ensures PatternFree(d, [])
  {
  }

  lemma StepIsClean(r: Rules, st: Stream, chunk: Bytes)
    requires WellFormed(r.patterns)
    ensures PatternFree(r.patterns, Process(r, st, chunk).1)
    ensures PatternFree(r.patterns, Flush(r, st).1)
  {
    hide CutEnd;
    hide Cut;
    EmptyIsPatternFree(r.patterns);
    AuditDecides(r.patterns, ShownAll(StepSegments(r, st, chunk)));
    AuditDecides(r.patterns, ShownAll(Cut(r.patterns, st.carryover, 0, |st.carryover|)));
  }

  /** Every buffer that leaves the redactor is free of every pattern. */
  lemma {:induction false} BuffersAreClean(r: Rules, st: Stream, chunks: seq<Bytes>)
    requires WellFormed(r.patterns)
    ensures forall out :: out in Run(r, st, chunks).1 ==> PatternFree(r.patterns, out)
    decreases |chunks|
  {
    hide Process;
    hide PatternFree;
    if chunks == [] {
    } else {
      StepIsClean(r, st, chunks[0]);
      BuffersAreClean(r, Process(r, st, chunks[0]).0, chunks[1..]);
    }
  }

  // ---- When a call halts ---------------------------------------------------------

  /** A call halts exactly when the buffer it would release contains a pattern. */
  lemma HaltsExactly(r: Rules, st: Stream, chunk: Bytes)
    requires ValidRules(r) && !st.halted
    ensures Process(r, st, chunk).0.halted <==> !PatternFree(r.patterns, ShownAll(StepSegments(r, st, chunk)))
    ensures Flush(r, st).0.halted <==> !PatternFree(r.patterns, ShownAll(Segments(r.patterns, st.carryover, 0)))
  {
    hide Head;
    hide CutEnd;
    AuditDecides(r.patterns, ShownAll(StepSegments(r, st, chunk)));
    AuditDecides(r.patterns, ShownAll(Segments(r.patterns, st.carryover, 0)));
    CutOfAll(r.patterns, st.carryover, 0);
    if r.patterns != [] && StopAt(r, st.carryover + chunk) <= 0 {
      NothingBefore(r.patterns, st.carryover + chunk, StopAt(r, st.carryover + chunk));
    }
  }

  /** A halting `process` call counts the violation, and counts the buffer that it
      withholds as emitted. */
  lemma HaltingChunkIsCounted(r: Rules, st: Stream, chunk: Bytes)
    requires ValidRules(r) && !st.halted && Process(r, st, chunk).0.halted
    ensures var (st', out) := Process(r, st, chunk);
            var segs, m := StepSegments(r, st, chunk), st.metrics;
            && out == [] && |ShownAll(segs)| > 0
            && st'.metrics == Metrics(m.matchCount + MatchCount(segs), m.bytesProcessed + |chunk|,
                                      m.bytesEmitted + |ShownAll(segs)|, m.confinementViolations + 1)
  {
    hide Head;
    hide CutEnd;
    hide Cut;
    HaltsExactly(r, st, chunk);
    EmptyIsPatternFree(r.patterns);
  }

  /** So does a halting `flush`. */
  lemma HaltingFlushIsCounted(r: Rules, st: Stream)
    requires ValidRules(r) && !st.halted && Flush(r, st).0.halted
    ensures var (st', out) := Flush(r, st);
            var segs, m := Segments(r.patterns, st.carryover, 0), st.metrics;
            && out == [] && |ShownAll(segs)| > 0
            && st'.metrics == Metrics(m.matchCount + MatchCount(segs), m.bytesProcessed,
                                      m.bytesEmitted + |ShownAll(segs)|, m.confinementViolations + 1)
  {
    hide Head;
    hide Cut;
    CutOfAll(r.patterns, st.carryover, 0);
    HaltsExactly(r, st, []);
    EmptyIsPatternFree(r.patterns);
  }

  /** The counters of a halted stream. */
  predicate Overstated(st: Stream, sent: Bytes) {
    st.halted && st.metrics.bytesEmitted > |sent| && st.metrics.confinementViolations == 1
  }

  lemma {:induction false} HaltedIsOverstated(r: Rules, calls: seq<StreamCall>)
    requires ValidRules(r) && After(r, calls).0.halted
    ensures Overstated(After(r, calls).0, After(r, calls).1)
    decreases |calls|
  {
    hide Process;
    hide Flush;
    hide Segments;
    if calls == [] {
      assert false;
    } else {
      var init := calls[..|calls| - 1];
      var (st, sent) := After(r, init);
      if st.halted {
        HaltedIsOverstated(r, init);
        HaltedCallChangesNothing(r, st);
      } else {
        var segs := EveryStateBalances(r, init);
        match calls[|calls| - 1] {
          case Feed(chunk) => HaltingChunkIsCounted(r, st, chunk);
          case Finish => HaltingFlushIsCounted(r, st);
        }
      }
    }
  }

  lemma HaltedCallChangesNothing(r: Rules, st: Stream)
    requires st.halted
    ensures Flush(r, st) == (st, []) && forall chunk :: Process(r, st, chunk) == (st, [])
  {
  }

  /** In every state, whatever calls led there: the emitted count is the number of bytes
      returned exactly when the stream is not halted, and one violation is counted
      exactly when it is. */
  lemma EmissionIsCountedExactly(r: Rules, calls: seq<StreamCall>)
    requires ValidRules(r)
    ensures var (st, sent) := After(r, calls);
            && (!st.halted <==> st.metrics.bytesEmitted == |sent|)
            && st.metrics.confinementViolations == if st.halted then 1 else 0
  {
    hide After;
    hide Segments;
    if After(r, calls).0.halted {
      HaltedIsOverstated(r, calls);
    } else {
      var segs := EveryStateBalances(r, calls);
    }
  }
}
