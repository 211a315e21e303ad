/** However the bytes of a stream arrive, the calls of `process` release the same initial
    part of the pass between them, and `flush` the rest: the steps that start early enough
    to leave a full look-ahead. */
module ReleasedSteps {
  import opened Octets
  import opened Sequences
  import opened Patterns
  import opened GreedyRedaction
  import opened RedactionStream

  /** The steps of the pass over `s` that are taken before `flush`. */
  function First(r: Rules, s: Bytes): seq<Segment> {
    StepSegments(r, FRESH, s)
  }

  /** The steps that are left to `flush`. */
  function Last(r: Rules, s: Bytes): seq<Segment> {
    Segments(r.patterns, StepCarryover(r, FRESH, s), 0)
  }

  // ---- Where the released part ends --------------------------------------------------

  /** Every step starts before raw offset `x`. */
  ghost predicate StartsBefore(segs: seq<Segment>, x: int) {
    segs == [] || |RawAll(segs[..|segs| - 1])| < x
  }

  lemma {:induction false} CutStartsBefore(d: Dictionary, s: Bytes, i: nat, stop: int)
    requires i <= |s|
    ensures StartsBefore(Cut(d, s, i, stop), stop - i)
    decreases |s| - i
  {
    if i >= stop || i >= |s| {
    } else {
      hide Head;
      var g := Head(d, s, i);
      var rest := Cut(d, s, i + |g.Raw()|, stop);
      assert Cut(d, s, i, stop) == [g] + rest;
      CutStartsBefore(d, s, i + |g.Raw()|, stop);
      if rest == [] {
        assert ([g] + rest)[..0] == [];
      } else {
        assert ([g] + rest)[..|rest|] == [g] + rest[..|rest| - 1];
        OneMoreRaw(g, rest[..|rest| - 1]);
      }
    }
  }

  lemma OneMoreRaw(g: Segment, segs: seq<Segment>)
    ensures |RawAll([g] + segs)| == |g.Raw()| + |RawAll(segs)|
  {
  }

  lemma StartsBeforeAppended(a: seq<Segment>, b: seq<Segment>, x: int)
    requires b != [] && |RawAll(a)| + |RawAll(b[..|b| - 1])| < x
    ensures StartsBefore(a + b, x)
  {
    assert (a + b)[..|a + b| - 1] == a + b[..|b| - 1];
    Appended(a, b[..|b| - 1]);
  }

  /** Of two beginnings of the same steps, the one that reaches `x` is not the shorter one
      if all steps of the other start before `x`. */
  lemma ReachingIsLonger(a: seq<Segment>, b: seq<Segment>, x: int)
    requires (a <= b || b <= a) && StartsBefore(a, x) && |RawAll(b)| >= x
    ensures a <= b
  {
    if b <= a && b != a {
      var rest := a[|b|..|a| - 1];
      assert a[..|a| - 1] == b + rest;
      Appended(b, rest);
    }
  }

  lemma BeginningsCompare<T>(a: seq<T>, rest: seq<T>, b: seq<T>, rest': seq<T>)
    requires a + rest == b + rest'
    ensures a <= b || b <= a
  {
    if |a| <= |b| {
      assert a == (a + rest)[..|a|] == (b + rest')[..|a|] == b[..|a|];
    } else {
      assert b == (b + rest')[..|b|] == (a + rest)[..|b|] == a[..|b|];
    }
  }

  /** One more call: what it releases starts early enough, too. */
  lemma StepStartsBefore(r: Rules, st: Stream, received: Bytes, segs: seq<Segment>, chunk: Bytes)
    requires ValidRules(r) && r.patterns != [] && received == RawAll(segs) + st.carryover
    requires StartsBefore(segs, |received| - BufferSize(r))
    ensures StartsBefore(segs + StepSegments(r, st, chunk), |received + chunk| - BufferSize(r))
  {
    hide CutEnd;
    hide Cut;
    hide RawAll;
    var combined := st.carryover + chunk;
    var stop := StopAt(r, combined);
    var more := StepSegments(r, st, chunk);
    PositiveBound(r);
    if more == [] {
      assert segs + more == segs;
    } else if stop <= 0 {
      NothingBefore(r.patterns, combined, stop);
      assert false;
    } else {
      CutStartsBefore(r.patterns, combined, 0, stop);
      StartsBeforeAppended(segs, more, |received + chunk| - BufferSize(r));
    }
  }

  /** One call on a new stream: the beginning that `First` is, and what remains. */
  lemma FirstAndLast(r: Rules, s: Bytes)
    requires ValidRules(r)
    ensures Segments(r.patterns, s, 0) == First(r, s) + Last(r, s)
    ensures s == RawAll(First(r, s)) + StepCarryover(r, FRESH, s)
    ensures |StepCarryover(r, FRESH, s)| <= BufferSize(r)
    ensures r.patterns != [] ==> StartsBefore(First(r, s), |s| - BufferSize(r))
  {
    hide Segments;
    hide StepSegments;
    hide StepCarryover;
    StepIsInvisible(r, FRESH, s, []);
    assert FRESH.carryover + s == s && s + [] == s;
    assert StepCarryover(r, FRESH, s) + [] == StepCarryover(r, FRESH, s);
    if r.patterns != [] {
      PositiveBound(r);
      var none: seq<Segment> := [];
      assert [] == RawAll(none) + FRESH.carryover;
      StepStartsBefore(r, FRESH, [], none, s);
      assert none + First(r, s) == First(r, s) && [] + s == s;
    }
    CarryoverIsShort(r, FRESH, s);
  }

  /** What has been released of a stream is a beginning of `First`. */
  lemma ReleasedIsBeginning(r: Rules, s: Bytes, segs: seq<Segment>, rest: seq<Segment>, n: nat)
    requires ValidRules(r) && r.patterns != [] && Segments(r.patterns, s, 0) == segs + rest
    requires n <= |s| && StartsBefore(segs, n - BufferSize(r))
    ensures segs <= First(r, s)
  {
    hide Segments;
    hide First;
    hide Last;
    hide RawAll;
    FirstAndLast(r, s);
    BeginningsCompare(segs, rest, First(r, s), Last(r, s));
    ReachingIsLonger(segs, First(r, s), |s| - BufferSize(r));
  }

  /** And it is `First` when all bytes have been received: the cut plays no part in it. */
  lemma ReleasedIsFirst(r: Rules, st: Stream, s: Bytes, segs: seq<Segment>)
    requires ValidRules(r) && r.patterns != [] && Tracks(r, st, s, segs)
    requires StartsBefore(segs, |s| - BufferSize(r))
    ensures segs == First(r, s) && Segments(r.patterns, st.carryover, 0) == Last(r, s)
  {
    hide Segments;
    hide StepSegments;
    hide StepCarryover;
    hide RawAll;
    var rest := Segments(r.patterns, st.carryover, 0);
    assert s + [] == s && st.carryover + [] == st.carryover;
    assert Segments(r.patterns, s + [], 0) == segs + Segments(r.patterns, st.carryover + [], 0);
    FirstAndLast(r, s);
    BeginningsCompare(segs, rest, First(r, s), Last(r, s));
    ReachingIsLonger(segs, First(r, s), |s| - BufferSize(r));
    ReachingIsLonger(First(r, s), segs, |s| - BufferSize(r));
    assert segs == First(r, s);
    SameRest(RawAll(segs), st.carryover, StepCarryover(r, FRESH, s));
  }

  lemma SameRest<T>(a: seq<T>, b: seq<T>, c: seq<T>)
    requires a + b == a + c
    ensures b == c
  {
    assert b == (a + b)[|a|..] == (a + c)[|a|..] == c;
  }
}
