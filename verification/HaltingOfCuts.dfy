/** What the cut of a stream can change about its being halted, for every dictionary.
    Which steps are released before `flush` does not depend on the cut, only where one
    buffer ends and the next begins does. One chunk makes one buffer of all these steps,
    single bytes make one buffer of each. */
module HaltingOfCuts {
  import opened Octets
  import opened Sequences
  import opened Patterns
  import opened GreedyRedaction
  import opened RedactionStream
  import opened ReleasedSteps
  import opened StreamTheorems
  import opened HaltingTheorems

  // ---- One chunk ------------------------------------------------------------------------

  /** In one chunk a stream is halted exactly when `First` or `Last` shows a pattern. */
  lemma OneChunkExactly(r: Rules, s: Bytes)
    requires ValidRules(r)
    ensures RunToEnd(r, [s]).0.halted
       <==> !PatternFree(r.patterns, ShownAll(First(r, s))) || !PatternFree(r.patterns, ShownAll(Last(r, s)))
  {
    hide Process;
    hide Flush;
    hide PatternFree;
    hide Segments;
    hide StepSegments;
    hide StepCarryover;
    hide ShownAll;
    var st := Process(r, FRESH, s).0;
    assert [s][1..] == [];
    assert Run(r, st, []) == (st, []);
    assert Run(r, FRESH, [s]).0 == st;
    HaltsExactly(r, FRESH, s);
    StepShape(r, FRESH, s);
    if st.halted {
      HaltedFlush(r, st);
    } else {
      HaltsExactly(r, st, []);
    }
  }

  /** The steps released by a beginning of a run are clean when the whole of `First` is. */
  lemma BeginningShows(d: Dictionary, whole: seq<Segment>, segs: seq<Segment>, more: seq<Segment>)
    requires segs + more <= whole && !PatternFree(d, ShownAll(more))
    ensures !PatternFree(d, ShownAll(whole))
  {
    hide PatternFree;
    var after := whole[|segs + more|..];
    assert whole == segs + more + after;
    if PatternFree(d, ShownAll(whole)) {
      PartOfOutput(d, whole, segs, more, after);
    }
  }

  lemma TracksParts(r: Rules, st: Stream, received: Bytes, segs: seq<Segment>)
    requires Tracks(r, st, received, segs)
    ensures !st.halted && received == RawAll(segs) + st.carryover
  {
  }

  /** From wherever a run has come, if it is halted then `First` or `Last` of the whole
      stream shows a pattern. */
  lemma {:induction false} HaltShows(r: Rules, st: Stream, received: Bytes, segs: seq<Segment>, chunks: seq<Bytes>)
    requires ValidRules(r) && r.patterns != [] && Tracks(r, st, received, segs)
    requires StartsBefore(segs, |received| - BufferSize(r))
    requires Flush(r, Run(r, st, chunks).0).0.halted
    ensures var s := received + Flatten(chunks);
            !PatternFree(r.patterns, ShownAll(First(r, s))) || !PatternFree(r.patterns, ShownAll(Last(r, s)))
    decreases |chunks|
  {
    hide Tracks;
    hide Process;
    hide Flush;
    hide Segments;
    hide StepSegments;
    hide StepCarryover;
    hide PatternFree;
    hide ShownAll;
    hide StartsBefore;
    hide First;
    hide Last;
    TracksParts(r, st, received, segs);
    if chunks == [] {
      assert received + [] == received;
      HaltsExactly(r, st, []);
      ReleasedIsFirst(r, st, received, segs);
    } else {
      var chunk, rest := chunks[0], chunks[1..];
      var more := StepSegments(r, st, chunk);
      var s := received + Flatten(chunks);
      StepTracks(r, st, received, segs, chunk);
      StepStartsBefore(r, st, received, segs, chunk);
      ConcatAssociative(received, chunk, Flatten(rest));
      if Process(r, st, chunk).0.halted {
        HaltsExactly(r, st, chunk);
        StepExtends(r, st, received, segs, chunk, Flatten(rest));
        ReleasedIsBeginning(r, s, segs + more, Segments(r.patterns, StepCarryover(r, st, chunk) + Flatten(rest), 0),
                            |received + chunk|);
        BeginningShows(r.patterns, First(r, s), segs, more);
      } else {
        HaltShows(r, Process(r, st, chunk).0, received + chunk, segs + more, rest);
      }
    }
  }

  lemma NothingToFind(s: Bytes)
    ensures PatternFree([], s)
  {
  }

  /** A stream that is halted in some cut is halted in one chunk. */
  lemma OneChunkHaltsMost(r: Rules, chunks: seq<Bytes>)
    requires ValidRules(r) && RunToEnd(r, chunks).0.halted
    ensures RunToEnd(r, [Flatten(chunks)]).0.halted
  {
    if r.patterns == [] {
      HaltNeedsPatternInOutput(r, chunks);
      NothingToFind(Greedy([], Flatten(chunks)));
      assert false;
    } else {
      hide Tracks;
      hide Run;
      hide Flush;
      hide PatternFree;
      hide ShownAll;
      hide First;
      hide Last;
      FreshTracks(r);
      HaltShows(r, FRESH, [], [], chunks);
      assert [] + Flatten(chunks) == Flatten(chunks);
      OneChunkExactly(r, Flatten(chunks));
    }
  }

  // ---- Any cut ------------------------------------------------------------------------------

  lemma CleanIsNotDirty(d: Dictionary, segs: seq<Segment>)
    requires PatternFree(d, ShownAll(segs))
    ensures !Dirty(d, segs)
  {
    if Dirty(d, segs) {
      DirtyShows(d, segs);
    }
  }

  /** A run that is not halted has put down no token that contains a pattern, and has
      flushed nothing that does. */
  lemma {:induction false} RunningIsClean(r: Rules, st: Stream, received: Bytes, segs: seq<Segment>, chunks: seq<Bytes>)
    requires ValidRules(r) && r.patterns != [] && Tracks(r, st, received, segs)
    requires StartsBefore(segs, |received| - BufferSize(r)) && !Dirty(r.patterns, segs)
    requires !Flush(r, Run(r, st, chunks).0).0.halted
    ensures var s := received + Flatten(chunks);
            !Dirty(r.patterns, First(r, s)) && PatternFree(r.patterns, ShownAll(Last(r, s)))
    decreases |chunks|
  {
    hide Tracks;
    hide Process;
    hide Flush;
    hide Segments;
    hide StepSegments;
    hide StepCarryover;
    hide PatternFree;
    hide Dirty;
    hide ShownAll;
    hide StartsBefore;
    hide First;
    hide Last;
    TracksParts(r, st, received, segs);
    if chunks == [] {
      assert received + [] == received;
      HaltsExactly(r, st, []);
      ReleasedIsFirst(r, st, received, segs);
    } else {
      var chunk, rest := chunks[0], chunks[1..];
      var more := StepSegments(r, st, chunk);
      var st1 := Process(r, st, chunk).0;
      StepTracks(r, st, received, segs, chunk);
      StepStartsBefore(r, st, received, segs, chunk);
      ConcatAssociative(received, chunk, Flatten(rest));
      if st1.halted {
        HaltedStaysSilent(r, st1, rest);
        HaltedFlush(r, st1);
        assert false;
      } else {
        HaltsExactly(r, st, chunk);
        CleanIsNotDirty(r.patterns, more);
        DirtyAppended(r.patterns, segs, more);
        RunningIsClean(r, st1, received + chunk, segs + more, rest);
      }
    }
  }

  lemma NothingIsDirty(segs: seq<Segment>)
    ensures !Dirty([], segs)
  {
  }

  /** The streams that are halted in every cut. */
  ghost predicate HaltsAnyhow(r: Rules, s: Bytes) {
    Dirty(r.patterns, First(r, s)) || !PatternFree(r.patterns, ShownAll(Last(r, s)))
  }

  lemma EveryCutHalts(r: Rules, chunks: seq<Bytes>)
    requires ValidRules(r) && HaltsAnyhow(r, Flatten(chunks))
    ensures RunToEnd(r, chunks).0.halted
  {
    hide First;
    hide Last;
    if r.patterns == [] {
      NothingIsDirty(First(r, Flatten(chunks)));
      NothingToFind(ShownAll(Last(r, Flatten(chunks))));
      assert false;
    } else if !RunToEnd(r, chunks).0.halted {
      hide Tracks;
      hide Run;
      hide Flush;
      hide PatternFree;
      hide Dirty;
      hide ShownAll;
      FreshTracks(r);
      NothingDirty(r.patterns);
      assert [] + Flatten(chunks) == Flatten(chunks);
      RunningIsClean(r, FRESH, [], [], chunks);
    }
  }

  // ---- Single bytes ---------------------------------------------------------------------------

  function SingleBytes(s: Bytes): (chunks: seq<Bytes>)
    ensures forall c :: c in chunks ==> |c| == 1
  {
    if s == [] then [] else [[s[0]]] + SingleBytes(s[1..])
  }

  lemma {:induction false} SingleBytesFlatten(s: Bytes)
    ensures Flatten(SingleBytes(s)) == s
  {
    if s == [] {
    } else {
      SingleBytesFlatten(s[1..]);
      assert SingleBytes(s)[1..] == SingleBytes(s[1..]);
      assert s == [s[0]] + s[1..];
    }
  }

  /** A call with one byte takes at most one step. */
  lemma OneByteOneStep(r: Rules, st: Stream, chunk: Bytes)
    requires ValidRules(r) && r.patterns != [] && |st.carryover| <= BufferSize(r) && |chunk| == 1
    ensures StepSegments(r, st, chunk) == [] ||
            StepSegments(r, st, chunk) == [Head(r.patterns, st.carryover + chunk, 0)]
  {
    hide Head;
    var combined := st.carryover + chunk;
    PositiveBound(r);
    assert StopAt(r, combined) <= 1;
    if StopAt(r, combined) == 1 {
      var g := Head(r.patterns, combined, 0);
      assert Cut(r.patterns, combined, 0, 1) == [g] + Cut(r.patterns, combined, |g.Raw()|, 1);
    } else {
      NothingBefore(r.patterns, combined, StopAt(r, combined));
    }
  }

  /** A single step shows a pattern only if it puts down a token that contains one. */
  lemma OneStepShows(d: Dictionary, s: Bytes, i: nat)
    requires WellFormed(d) && i < |s| && !PatternFree(d, ShownAll([Head(d, s, i)]))
    ensures Dirty(d, [Head(d, s, i)])
  {
    hide LongestAt;
    var g := Head(d, s, i);
    assert ShownAll([g]) == g.Shown() + [] == g.Shown();
    if g.Literal? {
      var p, k: nat :| p in d && OccursAt(p.bytes, [s[i]], k);
      assert [s[i]][k..] == if k == 0 then [s[i]] else [];
      assert p.bytes == [s[i]] && OccursAt(p.bytes, s, i);
      LongestAtIsLongest(d, s, i, |s|, p);
      assert false;
    } else {
      assert g in [g];
    }
  }

  lemma DirtyInBeginning(d: Dictionary, whole: seq<Segment>, segs: seq<Segment>, more: seq<Segment>)
    requires segs + more <= whole && Dirty(d, more)
    ensures Dirty(d, whole)
  {
    hide Dirty;
    assert whole == (segs + more) + whole[|segs + more|..];
    DirtyAppended(d, segs + more, whole[|segs + more|..]);
    DirtyAppended(d, segs, more);
  }

  lemma {:induction false} SingleBytesShow(r: Rules, st: Stream, received: Bytes, segs: seq<Segment>, chunks: seq<Bytes>)
    requires ValidRules(r) && r.patterns != [] && Tracks(r, st, received, segs)
    requires StartsBefore(segs, |received| - BufferSize(r))
    requires forall c :: c in chunks ==> |c| == 1
    requires Flush(r, Run(r, st, chunks).0).0.halted
    ensures HaltsAnyhow(r, received + Flatten(chunks))
    decreases |chunks|
  {
    hide Tracks;
    hide Process;
    hide Flush;
    hide Segments;
    hide StepSegments;
    hide StepCarryover;
    hide PatternFree;
    hide Dirty;
    hide Head;
    hide ShownAll;
    hide StartsBefore;
    hide First;
    hide Last;
    TracksParts(r, st, received, segs);
    if chunks == [] {
      assert received + [] == received;
      HaltsExactly(r, st, []);
      ReleasedIsFirst(r, st, received, segs);
    } else {
      var chunk, rest := chunks[0], chunks[1..];
      var more := StepSegments(r, st, chunk);
      var s := received + Flatten(chunks);
      StepTracks(r, st, received, segs, chunk);
      StepStartsBefore(r, st, received, segs, chunk);
      ConcatAssociative(received, chunk, Flatten(rest));
      if Process(r, st, chunk).0.halted {
        OneByteShows(r, st, received, segs, chunk);
        StepExtends(r, st, received, segs, chunk, Flatten(rest));
        ReleasedIsBeginning(r, s, segs + more, Segments(r.patterns, StepCarryover(r, st, chunk) + Flatten(rest), 0),
                            |received + chunk|);
        DirtyInBeginning(r.patterns, First(r, s), segs, more);
      } else {
        SingleBytesShow(r, Process(r, st, chunk).0, received + chunk, segs + more, rest);
      }
    }
  }

  lemma OneByteShows(r: Rules, st: Stream, received: Bytes, segs: seq<Segment>, chunk: Bytes)
    requires ValidRules(r) && r.patterns != [] && Tracks(r, st, received, segs) && |chunk| == 1
    requires Process(r, st, chunk).0.halted
    ensures Dirty(r.patterns, StepSegments(r, st, chunk))
  {
    hide Process;
    hide Segments;
    hide StepSegments;
    hide PatternFree;
    hide Dirty;
    hide Head;
    HaltsExactly(r, st, chunk);
    OneByteOneStep(r, st, chunk);
    EmptyIsPatternFree(r.patterns);
    if StepSegments(r, st, chunk) != [] {
      OneStepShows(r.patterns, st.carryover + chunk, 0);
    }
  }

  /** Byte by byte a stream is halted only if it is halted anyhow. */
  lemma SingleBytesHaltLeast(r: Rules, s: Bytes)
    requires ValidRules(r) && RunToEnd(r, SingleBytes(s)).0.halted
    ensures HaltsAnyhow(r, s)
  {
    hide First;
    hide Last;
    SingleBytesFlatten(s);
    if r.patterns == [] {
      HaltNeedsPatternInOutput(r, SingleBytes(s));
      NothingToFind(Greedy([], s));
      assert false;
    } else {
      hide Tracks;
      hide Run;
      hide Flush;
      hide HaltsAnyhow;
      FreshTracks(r);
      SingleBytesShow(r, FRESH, [], [], SingleBytes(s));
      assert [] + s == s;
    }
  }

  // ---- When the cut matters ----------------------------------------------------------------

  /** A stream is halted in every cut exactly when a token in `First` contains a pattern or
      `Last` shows one, which is to say when it is halted byte by byte. */
  lemma EveryCutHaltsExactly(r: Rules, s: Bytes)
    requires ValidRules(r)
    ensures (forall chunks :: Flatten(chunks) == s ==> RunToEnd(r, chunks).0.halted) <==> HaltsAnyhow(r, s)
    ensures RunToEnd(r, SingleBytes(s)).0.halted <==> HaltsAnyhow(r, s)
  {
    hide RunToEnd;
    hide HaltsAnyhow;
    SingleBytesFlatten(s);
    if HaltsAnyhow(r, s) {
      forall chunks | Flatten(chunks) == s ensures RunToEnd(r, chunks).0.halted {
        EveryCutHalts(r, chunks);
      }
    }
    if RunToEnd(r, SingleBytes(s)).0.halted {
      SingleBytesHaltLeast(r, s);
    }
  }

  /** A stream is halted in some cut exactly when it is halted in one chunk, which is to say
      when `First` or `Last` shows a pattern. */
  lemma SomeCutHaltsExactly(r: Rules, s: Bytes)
    requires ValidRules(r)
    ensures (exists chunks :: Flatten(chunks) == s && RunToEnd(r, chunks).0.halted) <==> RunToEnd(r, [s]).0.halted
    ensures RunToEnd(r, [s]).0.halted
       <==> !PatternFree(r.patterns, ShownAll(First(r, s))) || !PatternFree(r.patterns, ShownAll(Last(r, s)))
  {
    hide RunToEnd;
    hide First;
    hide Last;
    hide PatternFree;
    var none: seq<Bytes> := [];
    FlattenAppend(none, s);
    assert none + [s] == [s] && [] + s == s;
    assert Flatten([s]) == s;
    OneChunkExactly(r, s);
    if chunks :| Flatten(chunks) == s && RunToEnd(r, chunks).0.halted {
      OneChunkHaltsMost(r, chunks);
    }
  }

  /** For every dictionary and every stream: all cuts are halted alike exactly when `First`
      shows no pattern but inside its tokens, or the stream is halted anyhow. */
  lemma CutMattersExactly(r: Rules, s: Bytes)
    requires ValidRules(r)
    ensures (forall a, b :: Flatten(a) == s && Flatten(b) == s ==> RunToEnd(r, a).0.halted == RunToEnd(r, b).0.halted)
       <==> (!PatternFree(r.patterns, ShownAll(First(r, s))) ==>
               Dirty(r.patterns, First(r, s)) || !PatternFree(r.patterns, ShownAll(Last(r, s))))
  {
    hide RunToEnd;
    hide First;
    hide Last;
    hide PatternFree;
    hide Dirty;
    EveryCutHaltsExactly(r, s);
    SomeCutHaltsExactly(r, s);
    SingleBytesFlatten(s);
    var none: seq<Bytes> := [];
    FlattenAppend(none, s);
    assert none + [s] == [s] && [] + s == s;
    assert Flatten([s]) == s && Flatten(SingleBytes(s)) == s;
  }
}
