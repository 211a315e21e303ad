/** Whether a dictionary can halt any stream at all is decided by short streams: a pattern
    in a buffer is put together by few steps, and the bytes of these steps with one pattern
    length of look-ahead are a stream that is halted on its own. */
module ShortStreams {
  import opened Octets
  import opened Sequences
  import opened Patterns
  import opened GreedyRedaction
  import opened RedactionStream
  import opened ReleasedSteps
  import opened HaltingTheorems
  import opened HaltingOfCuts

  /** Steps as the pass takes them: they consume and show something, and consume no more
      than `bound` bytes. */
  predicate Proper(segs: seq<Segment>, bound: nat) {
    forall i :: 0 <= i < |segs| ==> segs[i].Shown() != [] && 0 < |segs[i].Raw()| <= bound
  }

  lemma {:induction false} StepsAreProper(d: Dictionary, bound: nat, s: Bytes, at: nat)
    requires WellFormed(d) && Bounded(d, bound) && TokensNonEmpty(d) && 0 < bound
    ensures Proper(Segments(d, s, at), bound)
    decreases |s| - at
  {
    if at >= |s| {
    } else {
      hide Head;
      HeadReads(d, s, at);
      StepsAreProper(d, bound, s, at + |Head(d, s, at).Raw()|);
    }
  }

  /** The steps after a beginning are the pass from where the beginning ends. */
  lemma {:induction false} PassAfter(d: Dictionary, s: Bytes, at: nat, a: seq<Segment>, rest: seq<Segment>)
    requires at <= |s| && Segments(d, s, at) == a + rest
    ensures at + |RawAll(a)| <= |s| && rest == Segments(d, s, at + |RawAll(a)|)
    decreases |a|
  {
    if a == [] {
      assert a + rest == rest;
    } else {
      hide Head;
      assert at < |s|;
      var g := Head(d, s, at);
      assert a[0] == (a + rest)[0] == g;
      assert (a + rest)[1..] == a[1..] + rest;
      PassAfter(d, s, at + |g.Raw()|, a[1..], rest);
    }
  }

  lemma {:induction false} RawIsBounded(segs: seq<Segment>, bound: nat)
    requires Proper(segs, bound)
    ensures |RawAll(segs)| <= |segs| * bound
  {
    if segs == [] {
    } else {
      RawIsBounded(segs[1..], bound);
      assert |segs| * bound == (|segs| - 1) * bound + bound;
    }
  }

  /** So many bytes are shown by at most as many steps. */
  lemma {:induction false} Cover(segs: seq<Segment>, bound: nat, n: int) returns (k: nat)
    requires Proper(segs, bound) && n <= |ShownAll(segs)|
    ensures k <= |segs| && (k <= n || k == 0) && n <= |ShownAll(segs[..k])|
  {
    if n <= 0 {
      k := 0;
    } else {
      var k' := Cover(segs[1..], bound, n - |segs[0].Shown()|);
      k := k' + 1;
      assert segs[..k][1..] == segs[1..][..k'];
    }
  }

  /** An occurrence is put together by no more steps than the pattern has bytes. */
  lemma {:induction false} Window(segs: seq<Segment>, bound: nat, w: Bytes, i: nat)
    returns (a: seq<Segment>, b: seq<Segment>, c: seq<Segment>, j: nat)
    requires Proper(segs, bound) && w != [] && OccursAt(w, ShownAll(segs), i)
    ensures segs == a + b + c && 0 < |b| <= |w| && OccursAt(w, ShownAll(b), j)
  {
    var m := |segs[0].Shown()|;
    assert segs != [] && ShownAll(segs) == segs[0].Shown() + ShownAll(segs[1..]);
    assert Proper(segs[1..], bound);
    hide ShownAll;
    hide OccursAt;
    hide Proper;
    if i < m {
      var k := StepsFor(segs, bound, w, i);
      a, b, c, j := [], segs[..k], segs[k..], i;
      assert segs == a + b + c;
    } else {
      OccursLater(w, segs[0].Shown(), ShownAll(segs[1..]), i);
      var a';
      a', b, c, j := Window(segs[1..], bound, w, i - m);
      a := [segs[0]] + a';
      Prepended(segs, a', b, c);
    }
  }

  /** How many steps an occurrence takes that starts in the first one. */
  lemma StepsFor(segs: seq<Segment>, bound: nat, w: Bytes, i: nat) returns (k: nat)
    requires Proper(segs, bound) && w != [] && segs != []
    requires OccursAt(w, ShownAll(segs), i) && i < |segs[0].Shown()|
    ensures 0 < k <= |w| && k <= |segs| && OccursAt(w, ShownAll(segs[..k]), i)
  {
    hide OccursAt;
    var rest := segs[1..];
    OccursWithin(w, ShownAll(segs), i);
    assert Proper(rest, bound);
    var k' := Cover(rest, bound, i + |w| - |segs[0].Shown()|);
    k := k' + 1;
    assert segs[..k][0] == segs[0] && segs[..k][1..] == rest[..k'];
    assert |ShownAll(segs[..k])| == |segs[0].Shown()| + |ShownAll(rest[..k'])|;
    hide ShownAll;
    hide Proper;
    assert segs == segs[..k] + segs[k..];
    Appended(segs[..k], segs[k..]);
    OccursEarly(w, ShownAll(segs[..k]), ShownAll(segs[k..]), i);
  }

  lemma Prepended<T>(s: seq<T>, a: seq<T>, b: seq<T>, c: seq<T>)
    requires s != [] && s[1..] == a + b + c
    ensures s == [s[0]] + a + b + c
  {
    assert s == [s[0]] + (a + b + c);
  }

  lemma OccursLater(w: Bytes, x: Bytes, y: Bytes, i: nat)
    requires OccursAt(w, x + y, i) && |x| <= i
    ensures OccursAt(w, y, i - |x|)
  {
    assert (x + y)[i..] == y[i - |x|..];
  }

  lemma OccursWithin(w: Bytes, s: Bytes, i: nat)
    requires OccursAt(w, s, i)
    ensures i + |w| <= |s|
  {
  }

  lemma OccursEarly(w: Bytes, x: Bytes, y: Bytes, i: nat)
    requires OccursAt(w, x + y, i) && i + |w| <= |x|
    ensures OccursAt(w, x, i)
  {
    assert (x + y)[i..] == x[i..] + y;
  }

  /** Bytes that a new stream would hold back entirely. */
  lemma HeldBack(r: Rules, s: Bytes)
    requires r.patterns != [] && |s| <= BufferSize(r) && r.maxPatternLen > 0
    ensures First(r, s) == [] && Last(r, s) == Segments(r.patterns, s, 0)
  {
    hide Segments;
    hide Cut;
    hide CutEnd;
    var combined := FRESH.carryover + s;
    assert combined == s;
    NothingBefore(r.patterns, combined, StopAt(r, combined));
    assert combined[0..] == combined;
  }

  /** What the last steps of a stream show, its last bytes show as a stream of their own. */
  lemma LastAlone(r: Rules, s: Bytes) returns (short: Bytes)
    requires ValidRules(r) && r.patterns != [] && !PatternFree(r.patterns, ShownAll(Last(r, s)))
    ensures |short| < r.maxPatternLen && RunToEnd(r, [short]).0.halted
  {
    hide Segments;
    hide StepCarryover;
    hide StepSegments;
    hide PatternFree;
    hide ShownAll;
    hide RunToEnd;
    short := StepCarryover(r, FRESH, s);
    PositiveBound(r);
    FirstAndLast(r, s);
    HeldBack(r, short);
    OneChunkExactly(r, short);
  }

  /** The bytes of the steps `b`, with look-ahead, as a stream of their own: a new stream
      takes the very same steps before it holds back the rest. */
  lemma StepsAlone(r: Rules, s: Bytes, a: seq<Segment>, b: seq<Segment>, c: seq<Segment>) returns (short: Bytes)
    requires ValidRules(r) && r.patterns != [] && Segments(r.patterns, s, 0) == a + b + c && b != []
    requires Proper(b, r.maxPatternLen)
    requires |RawAll(a)| + |RawAll(b[..|b| - 1])| + r.maxPatternLen <= |s|
    ensures |short| <= |b| * r.maxPatternLen && First(r, short) == b
  {
    hide Segments;
    hide StepSegments;
    hide StepCarryover;
    hide RawAll;
    hide StartsBefore;
    var u, v := |RawAll(a)|, |RawAll(b[..|b| - 1])|;
    var end := u + v + r.maxPatternLen;
    short := s[u..end];
    PositiveBound(r);
    assert a + b + c == a + (b + c);
    PassAfter(r.patterns, s, 0, a, b + c);
    SegmentsOfSuffix(r.patterns, s, u, u);
    assert s[u..] == short + s[end..];
    InitIsBounded(b, r.maxPatternLen);
    StepIsInvisible(r, FRESH, short, s[end..]);
    assert FRESH.carryover + short == short;
    FirstAndLast(r, short);
    LastConsumes(b);
    BeginsBefore(b);
    BeginningsCompare(First(r, short), Segments(r.patterns, StepCarryover(r, FRESH, short) + s[end..], 0), b, c);
    ReachingIsLonger(First(r, short), b, v + 1);
    ReachingIsLonger(b, First(r, short), v + 1);
  }

  lemma InitIsBounded(b: seq<Segment>, bound: nat)
    requires b != [] && Proper(b, bound)
    ensures |RawAll(b[..|b| - 1])| + bound <= |b| * bound
  {
    RawIsBounded(b[..|b| - 1], bound);
    assert (|b| - 1) * bound + bound == |b| * bound;
  }

  lemma BeginsBefore(b: seq<Segment>)
    requires b != []
    ensures StartsBefore(b, |RawAll(b[..|b| - 1])| + 1)
  {
  }

  lemma LastConsumes(b: seq<Segment>)
    requires b != [] && |b[|b| - 1].Raw()| > 0
    ensures |RawAll(b)| > |RawAll(b[..|b| - 1])|
  {
    var n := |b| - 1;
    assert b == b[..n] + [b[n]];
    Appended(b[..n], [b[n]]);
    assert RawAll([b[n]]) == b[n].Raw() + [];
  }

  lemma StartOfWindow(a: seq<Segment>, b: seq<Segment>, c: seq<Segment>, x: int)
    requires b != [] && StartsBefore(a + b + c, x)
    ensures |RawAll(a)| + |RawAll(b[..|b| - 1])| < x
  {
    hide RawAll;
    hide StartsBefore;
    StartsBeforePrefix(a + b, c, x);
    StartOfLast(a, b, x);
  }

  lemma StartsBeforePrefix(a: seq<Segment>, b: seq<Segment>, x: int)
    requires a != [] && StartsBefore(a + b, x)
    ensures StartsBefore(a, x)
  {
    hide RawAll;
    if b == [] {
      assert a + b == a;
    } else {
      var init := a[..|a| - 1];
      InitOfConcat(a, b);
      Appended(a, b[..|b| - 1]);
      assert a == init + [a[|a| - 1]];
      Appended(init, [a[|a| - 1]]);
    }
  }

  lemma StartOfLast(a: seq<Segment>, b: seq<Segment>, x: int)
    requires b != [] && StartsBefore(a + b, x)
    ensures |RawAll(a)| + |RawAll(b[..|b| - 1])| < x
  {
    hide RawAll;
    InitOfConcat(a, b);
    Appended(a, b[..|b| - 1]);
  }

  lemma InitOfConcat<T>(x: seq<T>, y: seq<T>)
    requires y != []
    ensures (x + y)[..|x + y| - 1] == x + y[..|y| - 1]
  {
  }

  /** What the first steps of a stream show, a few of them show. */
  lemma FirstAlone(r: Rules, s: Bytes) returns (short: Bytes)
    requires ValidRules(r) && r.patterns != [] && TokensNonEmpty(r.patterns)
    requires !PatternFree(r.patterns, ShownAll(First(r, s)))
    ensures |short| <= r.maxPatternLen * r.maxPatternLen && RunToEnd(r, [short]).0.halted
  {
    hide Segments;
    hide StepSegments;
    hide StepCarryover;
    hide ShownAll;
    hide RunToEnd;
    hide OccursAt;
    var m := r.maxPatternLen;
    PositiveBound(r);
    FirstAndLast(r, s);
    StepsAreProper(r.patterns, m, s, 0);
    ProperPart(First(r, s), Last(r, s), m);
    var p, i: nat :| p in r.patterns && OccursAt(p.bytes, ShownAll(First(r, s)), i);
    var a, b, c, j := Window(First(r, s), m, p.bytes, i);
    StartOfWindow(a, b, c, |s| - BufferSize(r));
    assert First(r, s) + Last(r, s) == a + b + (c + Last(r, s));
    ProperMiddle(a, b, c, m);
    short := StepsAlone(r, s, a, b, c + Last(r, s));
    FewerTimes(|b|, m);
    OneChunkExactly(r, short);
  }

  lemma FewerTimes(k: nat, m: nat)
    requires k <= m
    ensures k * m <= m * m
  {
  }

  lemma ProperPart(a: seq<Segment>, b: seq<Segment>, bound: nat)
    requires Proper(a + b, bound)
    ensures Proper(a, bound)
  {
    forall i | 0 <= i < |a| ensures a[i] == (a + b)[i] {
    }
  }

  lemma ProperMiddle(a: seq<Segment>, b: seq<Segment>, c: seq<Segment>, bound: nat)
    requires Proper(a + b + c, bound)
    ensures Proper(b, bound)
  {
    forall i | 0 <= i < |b| ensures b[i] == (a + b + c)[|a| + i] {
    }
  }

  /** For every dictionary: no stream is ever halted exactly when no single chunk of at most
      the square of the pattern bound is. This can be looked up before any stream is read. */
  lemma ShortStreamsDecide(r: Rules)
    requires ValidRules(r) && TokensNonEmpty(r.patterns)
    ensures NeverHalts(r)
       <==> forall s :: |s| <= r.maxPatternLen * r.maxPatternLen ==> !RunToEnd(r, [s]).0.halted
  {
    hide RunToEnd;
    if !NeverHalts(r) {
      var chunks :| RunToEnd(r, chunks).0.halted;
      var s := Flatten(chunks);
      if r.patterns == [] {
        HaltNeedsPatternInOutput(r, chunks);
        NothingToFind(Greedy([], s));
        assert false;
      } else {
        hide First;
        hide Last;
        hide PatternFree;
        OneChunkHaltsMost(r, chunks);
        OneChunkExactly(r, s);
        if !PatternFree(r.patterns, ShownAll(First(r, s))) {
          var short := FirstAlone(r, s);
        } else {
          var short := LastAlone(r, s);
          ShorterThanSquare(|short|, r.maxPatternLen);
        }
      }
    }
  }

  lemma ShorterThanSquare(k: nat, m: nat)
    requires k < m
    ensures k <= m * m
  {
  }
}
