/** Around the engine: the pump that forwards an upstream body to the client, and
    many streams interleaved over one parent engine. */
module StreamPump {
  import opened Octets
  import opened Wrappers
  import opened Sequences
  import opened Patterns
  import opened GreedyRedaction
  import opened RedactionStream
  import opened StreamTheorems
  import opened StreamingRedaction

  /** The response as the client sees it: the buffers written, in order. */
  class ClientResponse {
    var written: seq<Bytes>
    var ended: bool

    constructor ()
      ensures written == [] && !ended
    {
      written, ended := [], false;
    }

    method Write(buffer: Bytes)
      requires !ended
      modifies this`written
      ensures written == old(written) + [buffer]
    {
      written := written + [buffer];
    }

    method End()
      requires !ended
      modifies this`ended
      ensures ended
    {
      ended := true;
    }
  }

  lemma {:induction false} RunAppend(r: Rules, st: Stream, chunks: seq<Bytes>, last: Bytes)
    ensures var (mid, outs) := Run(r, st, chunks);
            var (end, out) := Process(r, mid, last);
            Run(r, st, chunks + [last]) == (end, outs + [out])
    decreases |chunks|
  {
    hide Process;
    if chunks == [] {
      var out := Process(r, st, last).1;
      assert [] + [last] == [last] && [last][1..] == [];
      assert [] + [out] == [out] + [] == [out];
    } else {
      assert (chunks + [last])[0] == chunks[0] && (chunks + [last])[1..] == chunks[1..] + [last];
      var (st1, first) := Process(r, st, chunks[0]);
      RunAppend(r, st1, chunks[1..], last);
      var (mid, outs) := Run(r, st1, chunks[1..]);
      ConcatAssociative([first], outs, [Process(r, mid, last).1]);
    }
  }

  lemma {:induction false} RunConcat(r: Rules, st: Stream, a: seq<Bytes>, b: seq<Bytes>)
    ensures var (mid, outs) := Run(r, st, a);
            var (end, more) := Run(r, mid, b);
            Run(r, st, a + b) == (end, outs + more)
    decreases |a|
  {
    hide Process;
    if a == [] {
      var more := Run(r, st, b).1;
      assert [] + b == b && [] + more == more;
    } else {
      assert (a + b)[0] == a[0] && (a + b)[1..] == a[1..] + b;
      var (st1, first) := Process(r, st, a[0]);
      RunConcat(r, st1, a[1..], b);
      var (mid, outs) := Run(r, st1, a[1..]);
      ConcatAssociative([first], outs, Run(r, mid, b).1);
    }
  }

  /** Once halted, the rest of the body adds nothing to what was released. */
  lemma HaltedMidway(r: Rules, body: seq<Bytes>, k: nat)
    requires k <= |body| && Run(r, FRESH, body[..k]).0.halted
    ensures RunToEnd(r, body).0.halted
    ensures Flatten(RunToEnd(r, body).1) == Flatten(Run(r, FRESH, body[..k]).1)
  {
    hide Process;
    hide Flush;
    var (mid, outs) := Run(r, FRESH, body[..k]);
    assert body == body[..k] + body[k..];
    RunConcat(r, FRESH, body[..k], body[k..]);
    HaltedStaysSilent(r, mid, body[k..]);
    HaltedFlush(r, mid);
    var more := Run(r, mid, body[k..]).1;
    FlattenConcat(outs, more);
    FlattenAppend(outs + more, []);
  }

  /** Nothing unclean among the buffers. */
  ghost predicate AllClean(d: Dictionary, buffers: seq<Bytes>) {
    forall b :: b in buffers ==> PatternFree(d, b)
  }

  /** The pump after forwarding `sent` without a halt. */
  ghost predicate Pumping(r: Rules, st: Stream, sent: seq<Bytes>, outs: seq<Bytes>, written: seq<Bytes>) {
    && Run(r, FRESH, sent) == (st, outs)
    && !st.halted
    && Flatten(written) == Flatten(outs)
    && AllClean(r.patterns, written)
  }

  /** Empty buffers are not written. */
  function WithBuffer(written: seq<Bytes>, buffer: Bytes): seq<Bytes> {
    if |buffer| > 0 then written + [buffer] else written
  }

  lemma WithBufferKeeps(d: Dictionary, written: seq<Bytes>, buffer: Bytes)
    requires PatternFree(d, buffer) && AllClean(d, written)
    ensures AllClean(d, WithBuffer(written, buffer))
    ensures Flatten(WithBuffer(written, buffer)) == Flatten(written) + buffer
  {
    hide PatternFree;
    FlattenAppend(written, buffer);
  }

  lemma PumpStep(r: Rules, st: Stream, sent: seq<Bytes>, outs: seq<Bytes>, written: seq<Bytes>, chunk: Bytes)
    requires WellFormed(r.patterns) && Pumping(r, st, sent, outs, written)
    ensures var (st', out) := Process(r, st, chunk);
            if st'.halted then
              Run(r, FRESH, sent + [chunk]).0.halted && Flatten(Run(r, FRESH, sent + [chunk]).1) == Flatten(written)
            else Pumping(r, st', sent + [chunk], outs + [out], WithBuffer(written, out))
  {
    hide PatternFree;
    RunAppend(r, FRESH, sent, chunk);
    StepIsClean(r, st, chunk);
    var (st', out) := Process(r, st, chunk);
    FlattenAppend(outs, out);
    ProcessHalts(r, st, chunk);
    hide Process;
    WithBufferKeeps(r.patterns, written, out);
  }

  lemma PumpEnd(r: Rules, st: Stream, body: seq<Bytes>, outs: seq<Bytes>, written: seq<Bytes>)
    requires WellFormed(r.patterns) && Pumping(r, st, body, outs, written)
    ensures var (end, out) := Flush(r, st);
            var written' := if end.halted then written else WithBuffer(written, out);
            && RunToEnd(r, body).0 == end
            && Flatten(RunToEnd(r, body).1) == Flatten(written')
            && AllClean(r.patterns, written')
  {
    hide PatternFree;
    hide Process;
    StepIsClean(r, st, []);
    var (end, out) := Flush(r, st);
    FlattenAppend(outs, out);
    FlushHalts(r, st);
    hide Flush;
    WithBufferKeeps(r.patterns, written, out);
  }

  lemma ProcessHalts(r: Rules, st: Stream, chunk: Bytes)
    requires !st.halted
    ensures Process(r, st, chunk).0.halted ==> Process(r, st, chunk).1 == []
  {
  }

  lemma FlushHalts(r: Rules, st: Stream)
    ensures Flush(r, st).0.halted ==> Flush(r, st).1 == []
  {
  }

  /** What a client may receive of a body. */
  ghost predicate Delivered(r: Rules, body: seq<Bytes>, written: seq<Bytes>, halted: bool) {
    && halted == RunToEnd(r, body).0.halted
    && Flatten(written) == Flatten(RunToEnd(r, body).1)
    && AllClean(r.patterns, written)
  }

  /** Forward a body through a redactor of its own. What the client receives is the
      greedy redaction of the body, or, if the audit halted the stream, an initial
      part of it; no buffer written contains a pattern; the response is ended. */
  method PumpRedacted(engine: StreamingRedactionEngine, body: seq<Bytes>, res: ClientResponse)
    returns (halted: bool)
    requires engine.Valid() && engine.HasPatterns()
    requires res.written == [] && !res.ended
    modifies res
    ensures res.ended
    ensures Flatten(res.written) <= Greedy(engine.patterns, Flatten(body))
    ensures !halted ==> Flatten(res.written) == Greedy(engine.patterns, Flatten(body))
    ensures halted == RunToEnd(engine.CurrentRules(), body).0.halted
    ensures AllClean(engine.patterns, res.written)
  {
    ChunkingIsInvisible(engine.CurrentRules(), body);
    halted := Pump(engine, body, res);
  }

  method Pump(engine: StreamingRedactionEngine, body: seq<Bytes>, res: ClientResponse)
    returns (halted: bool)
    requires engine.Valid() && engine.HasPatterns()
    requires res.written == [] && !res.ended
    modifies res
    ensures res.ended && Delivered(engine.CurrentRules(), body, res.written, halted)
  {
    hide RedactionStream.Process;
    hide RedactionStream.Flush;
    hide AllClean;
    hide Pumping;
    hide StreamingRedactionEngine.Valid;
    ValidRulesOf(engine);
    var redactor := new StreamingRedactionEngine.StreamInstance(engine);
    ghost var r := engine.CurrentRules();
    ghost var outs: seq<Bytes> := [];
    PumpStarts(r);
    for k := 0 to |body|
      invariant redactor.Valid() && redactor.CurrentRules() == r && !res.ended
      invariant engine.CurrentRules() == r
      invariant Pumping(r, redactor.State(), body[..k], outs, res.written)
    {
      TakeOneMore(body, k);
      PumpStep(r, redactor.State(), body[..k], outs, res.written, body[k]);
      PumpingIsClean(r, redactor.State(), body[..k], outs, res.written);
      var output := redactor.Process(body[k]);
      outs := outs + [output];
      if redactor.halted {
        HaltedMidway(r, body, k + 1);
        res.End();
        return true;
      }
      if |output| > 0 {
        res.Write(output);
      }
    }
    assert body[..|body|] == body;
    PumpEnd(r, redactor.State(), body, outs, res.written);
    var final := redactor.Flush();
    if redactor.halted {
      res.End();
      return true;
    }
    if |final| > 0 {
      res.Write(final);
    }
    res.End();
    return false;
  }

  lemma ValidRulesOf(engine: StreamingRedactionEngine)
    requires engine.Valid()
    ensures ValidRules(engine.CurrentRules())
  {
  }

  lemma PumpStarts(r: Rules)
    ensures Pumping(r, FRESH, [], [], [])
  {
  }

  lemma PumpingIsClean(r: Rules, st: Stream, sent: seq<Bytes>, outs: seq<Bytes>, written: seq<Bytes>)
    requires Pumping(r, st, sent, outs, written)
    ensures AllClean(r.patterns, written)
  {
  }

  /** Without an engine, or with an empty dictionary, the body passes through. */
  method PassThrough(body: seq<Bytes>, res: ClientResponse)
    requires res.written == [] && !res.ended
    modifies res
    ensures res.ended && Flatten(res.written) == Flatten(body)
  {
    for k := 0 to |body|
      invariant !res.ended && Flatten(res.written) == Flatten(body[..k])
    {
      TakeOneMore(body, k);
      FlattenAppend(body[..k], body[k]);
      FlattenAppend(res.written, body[k]);
      if |body[k]| > 0 {
        res.Write(body[k]);
      }
    }
    assert body[..|body|] == body;
    res.End();
  }

  /** Stream an upstream response to the client. Without an engine, or with an empty
      dictionary, the client receives the body. Otherwise it receives an initial part of the
      greedy redaction of the body, the whole of it unless the stream was halted, and no
      buffer contains a pattern. A halt is reported exactly when there is one. */
  method StreamResponse(engine: StreamingRedactionEngine?, body: Option<seq<Bytes>>, res: ClientResponse)
    returns (halted: bool)
    requires engine != null ==> engine.Valid()
    requires res.written == [] && !res.ended
    modifies res
    ensures res.ended
    ensures body.None? ==> !halted && Flatten(res.written) == []
    ensures (engine == null || engine.patterns == []) && body.Some? ==>
              !halted && Flatten(res.written) == Flatten(body.value)
    ensures engine != null && engine.patterns != [] && body.Some? ==>
              && halted == RunToEnd(engine.CurrentRules(), body.value).0.halted
              && Flatten(res.written) <= Greedy(engine.patterns, Flatten(body.value))
              && (!halted ==> Flatten(res.written) == Greedy(engine.patterns, Flatten(body.value)))
    ensures engine != null && engine.patterns != [] ==> AllClean(engine.patterns, res.written)
  {
    hide StreamingRedactionEngine.Valid;
    hide Greedy;
    if body.None? {
      res.End();
      return false;
    }
    if engine != null && engine.HasPatterns() {
      hide AllClean;
      halted := PumpRedacted(engine, body.value, res);
    } else {
      PassThrough(body.value, res);
      halted := false;
    }
  }
}
