/** When a stream is halted. As long as no pattern can stick out of a token, the stream
    as a whole decides: it is halted exactly when the pass over it puts down a token
    that itself contains a pattern, however the stream is cut. */
module HaltingTheorems {
  import opened Octets
  import opened Sequences
  import opened Patterns
  import opened GreedyRedaction
  import opened OutputSafety
  import opened ConfinementAudit
  import opened RedactionStream
  import opened StreamTheorems

  /** Some step puts down a token that contains a pattern. */
  ghost predicate Dirty(d: Dictionary, segs: seq<Segment>) {
    exists g :: g in segs && g.Replaced? && !PatternFree(d, g.entry.token)
  }

  lemma DirtyAppended(d: Dictionary, a: seq<Segment>, b: seq<Segment>)
    ensures Dirty(d, a + b) <==> Dirty(d, a) || Dirty(d, b)
  {
    hide PatternFree;
    assert forall g :: g in a + b <==> g in a || g in b;
  }

  lemma NothingDirty(d: Dictionary)
    ensures !Dirty(d, [])
  {
  }

  // ---- One buffer -----------------------------------------------------------------

  /** A token stands in one of two parts. */
  lemma {:induction false} TokenInPart(a: seq<Segment>, b: seq<Segment>, q: PatternEntry, k: int)
    requires TokenAt(a + b, q, k)
    ensures TokenAt(a, q, k) || TokenAt(b, q, k - |ShownAll(a)|)
  {
    if a == [] {
      assert a + b == b;
    } else {
      assert (a + b)[0] == a[0] && (a + b)[1..] == a[1..] + b;
      if !(a[0] == Replaced(q) && k == 0) {
        TokenInPart(a[1..], b, q, k - |a[0].Shown()|);
      }
    }
  }

  lemma {:induction false} TokenAtMember(segs: seq<Segment>, q: PatternEntry, k: int)
    requires TokenAt(segs, q, k)
    ensures Replaced(q) in segs
  {
    if segs[0] == Replaced(q) && k == 0 {
    } else {
      TokenAtMember(segs[1..], q, k - |segs[0].Shown()|);
    }
  }

  /** A token that overlaps the middle part stands in the middle part. */
  lemma TokenInMiddle(before: seq<Segment>, out: seq<Segment>, after: seq<Segment>, q: PatternEntry, k: int)
    requires TokenAt(before + out + after, q, k)
    requires k < |ShownAll(before)| + |ShownAll(out)| && |ShownAll(before)| < k + |q.token|
    ensures Replaced(q) in out
  {
    Appended(before, out);
    TokenInPart(before + out, after, q, k);
    if TokenAt(after, q, k - |ShownAll(before + out)|) {
      TokenAtNonNegative(after, q, k - |ShownAll(before + out)|);
      assert false;
    }
    TokenInPart(before, out, q, k);
    if TokenAt(before, q, k) {
      TokenAtNonNegative(before, q, k);
      TokenAtShows(before, q, k);
      assert false;
    }
    TokenAtMember(out, q, k - |ShownAll(before)|);
  }

  lemma DirtyShows(d: Dictionary, segs: seq<Segment>)
    requires Dirty(d, segs)
    ensures !PatternFree(d, ShownAll(segs))
  {
    hide PatternFree;
    var g :| g in segs && g.Replaced? && !PatternFree(d, g.entry.token);
    var i :| 0 <= i < |segs| && segs[i] == g;
    var a, c := segs[..i], segs[i + 1..];
    assert segs == a + [g] + c;
    Appended(a + [g], c);
    Appended(a, [g]);
    assert ShownAll([g]) == g.entry.token + [] == g.entry.token;
    hide ShownAll;
    assert ShownAll(segs) == ShownAll(a) + g.entry.token + ShownAll(c);
    if PatternFree(d, ShownAll(segs)) {
      FactorOfPatternFree(d, ShownAll(a), g.entry.token, ShownAll(c));
    }
  }

  lemma InsideToken(w: Bytes, t: Bytes, whole: Bytes, i: nat, k: nat)
    requires OccursAt(w, whole, i) && k + |t| <= |whole| && whole[k..k + |t|] == t
    requires Overlap(i, |w|, k, |t|) && StaysInside(w, t)
    ensures k <= i && OccursAt(w, t, i - k)
  {
    LinedUp(w, t, whole, i, k);
  }

  lemma OccursFurther(w: Bytes, a: Bytes, b: Bytes, c: Bytes, i: nat)
    requires OccursAt(w, b, i)
    ensures OccursAt(w, a + b + c, |a| + i)
    ensures i + |w| <= |b|
  {
    assert (a + b + c)[|a| + i..] == b[i..] + c;
  }

  /** An occurrence in one part of the output lies inside a token of that part. */
  lemma OccurrenceIsDirty(d: Dictionary, s: Bytes, before: seq<Segment>, out: seq<Segment>, after: seq<Segment>,
                          p: PatternEntry, i: nat)
    requires WellFormed(d) && TokensNonEmpty(d) && NoPatternSticksOut(d)
    requires Segments(d, s, 0) == before + out + after
    requires p in d && OccursAt(p.bytes, ShownAll(out), i)
    ensures Dirty(d, out)
  {
    hide Segments;
    hide TokenAt;
    hide ShownAll;
    hide OccursAt;
    hide StaysInside;
    hide PatternFree;
    var a := |ShownAll(before)|;
    var whole := ShownAll(Segments(d, s, 0));
    Appended(before + out, after);
    Appended(before, out);
    OccursFurther(p.bytes, ShownAll(before), ShownAll(out), ShownAll(after), i);
    var q, k := OutputOccurrenceMeetsToken(d, s, 0, p, a + i);
    TokenAtNonNegative(Segments(d, s, 0), q, k);
    TokenAtShows(Segments(d, s, 0), q, k);
    InsideToken(p.bytes, q.token, whole, a + i, k);
    TokenInMiddle(before, out, after, q, k);
    NotPatternFree(d, q.token, p, a + i - k);
    assert Replaced(q).entry.token == q.token;
  }

  lemma NotPatternFree(d: Dictionary, s: Bytes, p: PatternEntry, i: nat)
    requires p in d && OccursAt(p.bytes, s, i)
    ensures !PatternFree(d, s)
  {
  }

  /** A part of the output contains a pattern exactly when a token in it does. */
  lemma PartIsClean(d: Dictionary, s: Bytes, before: seq<Segment>, out: seq<Segment>, after: seq<Segment>)
    requires WellFormed(d) && TokensNonEmpty(d) && NoPatternSticksOut(d)
    requires Segments(d, s, 0) == before + out + after
    ensures PatternFree(d, ShownAll(out)) <==> !Dirty(d, out)
  {
    hide Segments;
    if Dirty(d, out) {
      DirtyShows(d, out);
    } else {
      forall p, i: nat | p in d && OccursAt(p.bytes, ShownAll(out), i) ensures false {
        OccurrenceIsDirty(d, s, before, out, after, p, i);
      }
    }
  }

  // ---- Whole streams ---------------------------------------------------------------

  ghost predicate Decided(r: Rules) {
    ValidRules(r) && TokensNonEmpty(r.patterns) && NoPatternSticksOut(r.patterns)
  }

  /** One call halts exactly when one of the tokens it puts down contains a pattern. */
  lemma StepHalts(r: Rules, st: Stream, received: Bytes, segs: seq<Segment>, chunk: Bytes)
    requires Decided(r) && Tracks(r, st, received, segs)
    ensures Process(r, st, chunk).0.halted <==> Dirty(r.patterns, StepSegments(r, st, chunk))
  {
    hide Process;
    hide StepSegments;
    hide StepCarryover;
    hide Segments;
    hide PatternFree;
    hide Dirty;
    HaltsExactly(r, st, chunk);
    StepExtends(r, st, received, segs, chunk, []);
    PartIsClean(r.patterns, received + chunk + [], segs, StepSegments(r, st, chunk),
                Segments(r.patterns, StepCarryover(r, st, chunk) + [], 0));
  }

  lemma FlushHalts(r: Rules, st: Stream, received: Bytes, segs: seq<Segment>)
    requires Decided(r) && Tracks(r, st, received, segs)
    ensures Segments(r.patterns, received, 0) == segs + Segments(r.patterns, st.carryover, 0)
    ensures Flush(r, st).0.halted <==> Dirty(r.patterns, Segments(r.patterns, st.carryover, 0))
  {
    hide Flush;
    hide Segments;
    hide PatternFree;
    hide Dirty;
    var last := Segments(r.patterns, st.carryover, 0);
    assert received + [] == received && st.carryover + [] == st.carryover;
    assert Segments(r.patterns, received + [], 0) == segs + Segments(r.patterns, st.carryover + [], 0);
    assert segs + last == segs + last + [];
    HaltsExactly(r, st, []);
    PartIsClean(r.patterns, received, segs, last, []);
  }

  lemma {:induction false} RunHalts(r: Rules, st: Stream, received: Bytes, segs: seq<Segment>, chunks: seq<Bytes>)
    requires Decided(r) && Tracks(r, st, received, segs) && !Dirty(r.patterns, segs)
    ensures Flush(r, Run(r, st, chunks).0).0.halted
       <==> Dirty(r.patterns, Segments(r.patterns, received + Flatten(chunks), 0))
    decreases |chunks|
  {
    hide Process;
    hide Flush;
    hide Segments;
    hide StepSegments;
    hide StepCarryover;
    hide Dirty;
    hide Decided;
    hide Tracks;
    if chunks == [] {
      assert received + [] == received;
      FlushHalts(r, st, received, segs);
      DirtyAppended(r.patterns, segs, Segments(r.patterns, st.carryover, 0));
    } else {
      var chunk, rest := chunks[0], chunks[1..];
      var more := StepSegments(r, st, chunk);
      var st1 := Process(r, st, chunk).0;
      DecidedIsValid(r);
      StepHalts(r, st, received, segs, chunk);
      StepTracks(r, st, received, segs, chunk);
      DirtyAppended(r.patterns, segs, more);
      ConcatAssociative(received, chunk, Flatten(rest));
      if st1.halted {
        StepExtends(r, st, received, segs, chunk, Flatten(rest));
        DirtyAppended(r.patterns, segs + more, Segments(r.patterns, StepCarryover(r, st, chunk) + Flatten(rest), 0));
        HaltedStaysSilent(r, st1, rest);
        HaltedFlush(r, st1);
      } else {
        RunHalts(r, st1, received + chunk, segs + more, rest);
      }
    }
  }

  lemma DecidedIsValid(r: Rules)
    requires Decided(r)
    ensures ValidRules(r)
  {
  }

  /** A stream is halted exactly when the pass over the whole of it puts down a token
      that contains a pattern: the cut plays no part. */
  lemma HaltedExactly(r: Rules, chunks: seq<Bytes>)
    requires ValidRules(r) && TokensNonEmpty(r.patterns) && NoPatternSticksOut(r.patterns)
    ensures RunToEnd(r, chunks).0.halted
       <==> exists g :: g in Segments(r.patterns, Flatten(chunks), 0) && g.Replaced? && !PatternFree(r.patterns, g.entry.token)
  {
    hide Segments;
    hide Tracks;
    hide Run;
    hide Flush;
    hide PatternFree;
    hide NoPatternSticksOut;
    hide ValidRules;
    FreshTracks(r);
    NothingDirty(r.patterns);
    RunHalts(r, FRESH, [], [], chunks);
    assert [] + Flatten(chunks) == Flatten(chunks);
  }

  /** Two ways of cutting the same bytes are halted alike, and release the same bytes
      unless they are. */
  lemma HaltingIgnoresChunking(r: Rules, a: seq<Bytes>, b: seq<Bytes>)
    requires ValidRules(r) && TokensNonEmpty(r.patterns) && NoPatternSticksOut(r.patterns)
    requires Flatten(a) == Flatten(b)
    ensures RunToEnd(r, a).0.halted == RunToEnd(r, b).0.halted
    ensures !RunToEnd(r, a).0.halted ==> Flatten(RunToEnd(r, a).1) == Flatten(RunToEnd(r, b).1)
  {
    hide RunToEnd;
    hide Segments;
    HaltedExactly(r, a);
    HaltedExactly(r, b);
    if !RunToEnd(r, a).0.halted {
      AnyTwoChunkingsAgree(r, a, b);
    }
  }

  // ---- Any dictionary ----------------------------------------------------------------

  lemma PartOfOutput(d: Dictionary, whole: seq<Segment>, before: seq<Segment>, out: seq<Segment>, after: seq<Segment>)
    requires whole == before + out + after && PatternFree(d, ShownAll(whole))
    ensures PatternFree(d, ShownAll(out))
  {
    hide PatternFree;
    Appended(before + out, after);
    Appended(before, out);
    FactorOfPatternFree(d, ShownAll(before), ShownAll(out), ShownAll(after));
  }

  lemma {:induction false} HaltShowsInWhole(r: Rules, st: Stream, received: Bytes, segs: seq<Segment>, chunks: seq<Bytes>)
    requires ValidRules(r) && Tracks(r, st, received, segs)
    requires Flush(r, Run(r, st, chunks).0).0.halted
    ensures !PatternFree(r.patterns, ShownAll(Segments(r.patterns, received + Flatten(chunks), 0)))
    decreases |chunks|
  {
    hide Process;
    hide Flush;
    hide Segments;
    hide StepSegments;
    hide StepCarryover;
    hide PatternFree;
    hide ShownAll;
    if chunks == [] {
      assert received + [] == received && st.carryover + [] == st.carryover;
      var last := Segments(r.patterns, st.carryover, 0);
      assert Segments(r.patterns, received + [], 0) == segs + Segments(r.patterns, st.carryover + [], 0);
      assert segs + last == segs + last + [];
      HaltsExactly(r, st, []);
      if PatternFree(r.patterns, ShownAll(Segments(r.patterns, received, 0))) {
        PartOfOutput(r.patterns, Segments(r.patterns, received, 0), segs, last, []);
      }
    } else {
      var chunk, rest := chunks[0], chunks[1..];
      var more := StepSegments(r, st, chunk);
      var kept := StepCarryover(r, st, chunk);
      var whole := Segments(r.patterns, received + Flatten(chunks), 0);
      StepTracks(r, st, received, segs, chunk);
      ConcatAssociative(received, chunk, Flatten(rest));
      if Process(r, st, chunk).0.halted {
        HaltsExactly(r, st, chunk);
        StepExtends(r, st, received, segs, chunk, Flatten(rest));
        if PatternFree(r.patterns, ShownAll(whole)) {
          PartOfOutput(r.patterns, whole, segs, more, Segments(r.patterns, kept + Flatten(rest), 0));
        }
      } else {
        HaltShowsInWhole(r, Process(r, st, chunk).0, received + chunk, segs + more, rest);
      }
    }
  }

  /** For every dictionary: a stream is halted only if the redaction of the whole of it
      contains a pattern. */
  lemma HaltNeedsPatternInOutput(r: Rules, chunks: seq<Bytes>)
    requires ValidRules(r) && RunToEnd(r, chunks).0.halted
    ensures !PatternFree(r.patterns, Greedy(r.patterns, Flatten(chunks)))
  {
    hide Segments;
    hide Tracks;
    hide Run;
    hide Flush;
    hide PatternFree;
    hide ShownAll;
    FreshTracks(r);
    HaltShowsInWhole(r, FRESH, [], [], chunks);
    assert [] + Flatten(chunks) == Flatten(chunks);
  }

  // ---- Which dictionaries can halt a stream -----------------------------------------

  ghost predicate NeverHalts(r: Rules) {
    forall chunks :: !RunToEnd(r, chunks).0.halted
  }

  lemma SecretAloneIsItsToken(d: Dictionary, q: PatternEntry, stop: int)
    requires WellFormed(d) && q in d && 0 < stop
    ensures Cut(d, q.bytes, 0, stop) == [Replaced(q)]
    ensures CutEnd(d, q.bytes, 0, stop) == |q.bytes|
  {
    var n := |q.bytes|;
    assert q.bytes[0..n] == q.bytes;
    PatternForUnique(d, q);
    assert Head(d, q.bytes, 0) == Replaced(q);
    assert Cut(d, q.bytes, n, stop) == [] && CutEnd(d, q.bytes, n, stop) == n;
  }

  /** A token that contains a pattern halts the stream that consists of its secret alone. */
  lemma TokenWithPatternHalts(r: Rules, q: PatternEntry)
    requires ValidRules(r) && q in r.patterns && !PatternFree(r.patterns, q.token)
    ensures RunToEnd(r, [q.bytes]).0.halted
  {
    hide Cut;
    hide CutEnd;
    hide FirstViolation;
    var chunk := q.bytes;
    assert FRESH.carryover + chunk == chunk;
    AuditDecides(r.patterns, q.token);
    assert ShownAll([Replaced(q)]) == q.token;
    var (st, out) := Process(r, FRESH, chunk);
    assert Run(r, st, []) == (st, []);
    assert Run(r, FRESH, [chunk]).0 == st;
    if StopAt(r, chunk) > 0 {
      SecretAloneIsItsToken(r.patterns, q, StopAt(r, chunk));
    } else {
      NothingBefore(r.patterns, chunk, StopAt(r, chunk));
      SecretAloneIsItsToken(r.patterns, q, |chunk|);
    }
  }

  lemma {:induction false} StepsAreEntries(d: Dictionary, s: Bytes, at: nat)
    ensures forall g :: g in Segments(d, s, at) && g.Replaced? ==> g.entry in d
    decreases |s| - at
  {
    hide Head;
    if at >= |s| {
    } else {
      HeadReads(d, s, at);
      StepsAreEntries(d, s, at + |Head(d, s, at).Raw()|);
    }
  }

  /** When no pattern can stick out of a token the dictionary alone decides: no stream
      is ever halted exactly when no pattern lies inside a token. */
  lemma NeverHaltsExactly(r: Rules)
    requires ValidRules(r) && TokensNonEmpty(r.patterns) && NoPatternSticksOut(r.patterns)
    ensures NeverHalts(r) <==> NoPatternInsideToken(r.patterns)
  {
    hide RunToEnd;
    hide Segments;
    if NoPatternInsideToken(r.patterns) {
      forall chunks ensures !RunToEnd(r, chunks).0.halted {
        HaltedExactly(r, chunks);
        StepsAreEntries(r.patterns, Flatten(chunks), 0);
      }
    } else {
      var q :| q in r.patterns && !PatternFree(r.patterns, q.token);
      TokenWithPatternHalts(r, q);
    }
  }

  /** If no pattern can line up with a token at all, the audit never fires. */
  lemma DisjointTokensNeverHalt(r: Rules)
    requires ValidRules(r) && TokensNonEmpty(r.patterns) && NoPatternMeetsToken(r.patterns)
    ensures NeverHalts(r)
  {
    forall p, q, k | p in r.patterns && q in r.patterns && MeetsAt(p.bytes, q.token, k) ensures false {
      assert CanMeet(p.bytes, q.token);
    }
    InsideCriterion(r.patterns);
    NeverHaltsExactly(r);
  }
}
