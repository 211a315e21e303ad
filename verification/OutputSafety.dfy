/** What redaction hides. Every occurrence of a pattern in the input starts inside
    a replaced span, and every occurrence of a pattern in the output overlaps a
    token; so when no pattern can overlap a token the output is pattern-free. */
module OutputSafety {
  import opened Octets
  import opened Patterns
  import opened GreedyRedaction

  /** Input offset `i` lies inside a replaced span. */
  predicate InReplacedSpan(segs: seq<Segment>, i: nat) {
    segs != [] &&
    if i < |segs[0].Raw()| then segs[0].Replaced?
    else InReplacedSpan(segs[1..], i - |segs[0].Raw()|)
  }

  /** The token of `q` stands at output offset `k`. */
  ghost predicate TokenAt(segs: seq<Segment>, q: PatternEntry, k: int)
    decreases |segs|
  {
    segs != [] && (
      (segs[0] == Replaced(q) && k == 0) ||
      TokenAt(segs[1..], q, k - |segs[0].Shown()|))
  }

  ghost predicate Overlap(i: int, n: int, j: int, m: int) {
    i < j + m && j < i + n
  }

  /** No secret starts in a byte that was copied. */
  lemma {:induction false} InputOccurrenceIsReplaced(d: Dictionary, s: Bytes, at: nat, p: PatternEntry, i: nat)
    requires p in d && p.bytes != [] && at <= i && OccursAt(p.bytes, s, i)
    ensures InReplacedSpan(Segments(d, s, at), i - at)
    decreases |s| - at
  {
    hide LongestAt;
    var next := at + |Head(d, s, at).Raw()|;
    if i == at {
      LongestAtIsLongest(d, s, at, |s|, p);
    } else if next <= i {
      InputOccurrenceIsReplaced(d, s, next, p, i);
    }
  }

  lemma ShownUnfolds(d: Dictionary, s: Bytes, at: nat)
    requires at < |s|
    ensures var g := Head(d, s, at);
            ShownAll(Segments(d, s, at)) == g.Shown() + ShownAll(Segments(d, s, at + |g.Raw()|))
  {
  }

  /** A prefix of the output reaches the first token or was copied from the input. */
  lemma {:induction false} OutputPrefix(d: Dictionary, s: Bytes, at: nat, w: Bytes) returns (q: PatternEntry, k: nat)
    requires TokensNonEmpty(d) && at <= |s| && w <= ShownAll(Segments(d, s, at))
    ensures w <= s[at..] || (k < |w| && q in d && TokenAt(Segments(d, s, at), q, k))
    decreases |s| - at
  {
    hide LongestAt;
    q, k := PatternEntry([], [], []), 0;
    if w == [] {
    } else {
      var g := Head(d, s, at);
      ShownUnfolds(d, s, at);
      if g.Replaced? {
        q := g.entry;
        HeadReads(d, s, at);
      } else {
        var k';
        q, k' := OutputPrefix(d, s, at + 1, w[1..]);
        k := k' + 1;
        assert w == [s[at]] + w[1..];
        assert s[at..] == [s[at]] + s[at + 1..];
      }
    }
  }

  /** A secret in the output needs help from a token. */
  lemma {:induction false} OutputOccurrenceMeetsToken(d: Dictionary, s: Bytes, at: nat, p: PatternEntry, i: nat)
    returns (q: PatternEntry, k: nat)
    requires TokensNonEmpty(d) && at <= |s|
    requires p in d && p.bytes != [] && OccursAt(p.bytes, ShownAll(Segments(d, s, at)), i)
    ensures q in d && TokenAt(Segments(d, s, at), q, k)
    ensures Overlap(i, |p.bytes|, k, |q.token|)
    decreases |s| - at
  {
    hide LongestAt;
    var g := Head(d, s, at);
    var next := at + |g.Raw()|;
    var m := |g.Shown()|;
    ShownUnfolds(d, s, at);
    if i >= m {
      var k';
      assert ShownAll(Segments(d, s, at))[i..] == ShownAll(Segments(d, s, next))[i - m..];
      q, k' := OutputOccurrenceMeetsToken(d, s, next, p, i - m);
      k := k' + m;
    } else if g.Replaced? {
      q, k := g.entry, 0;
      HeadReads(d, s, at);
    } else {
      q, k := OutputPrefix(d, s, at, p.bytes);
      if p.bytes <= s[at..] {
        LongestAtIsLongest(d, s, at, |s|, p);
      }
    }
  }

  lemma {:induction false} TokenAtShows(segs: seq<Segment>, q: PatternEntry, k: nat)
    requires TokenAt(segs, q, k)
    ensures k + |q.token| <= |ShownAll(segs)|
    ensures ShownAll(segs)[k..k + |q.token|] == q.token
  {
    var m := |segs[0].Shown()|;
    if segs[0] == Replaced(q) && k == 0 {
    } else {
      TokenAtNonNegative(segs[1..], q, k - m);
      TokenAtShows(segs[1..], q, k - m);
      assert ShownAll(segs) == segs[0].Shown() + ShownAll(segs[1..]);
      assert ShownAll(segs)[k..k + |q.token|] == ShownAll(segs[1..])[k - m..k - m + |q.token|];
    }
  }

  lemma {:induction false} TokenAtNonNegative(segs: seq<Segment>, q: PatternEntry, k: int)
    requires TokenAt(segs, q, k)
    ensures k >= 0
  {
    if segs[0] == Replaced(q) && k == 0 {
    } else {
      TokenAtNonNegative(segs[1..], q, k - |segs[0].Shown()|);
    }
  }

  /** `w` and `t` agree wherever they meet when `t` is placed at offset `k` of `w`,
      and they do meet. */
  ghost predicate MeetsAt(w: Bytes, t: Bytes, k: int) {
    Overlap(0, |w|, k, |t|) && forall j :: 0 <= j < |w| && 0 <= j - k < |t| ==> w[j] == t[j - k]
  }

  ghost predicate CanMeet(w: Bytes, t: Bytes) {
    exists k :: MeetsAt(w, t, k)
  }

  ghost predicate NoPatternMeetsToken(d: Dictionary) {
    forall p, q :: p in d && q in d ==> !CanMeet(p.bytes, q.token)
  }

  /** If no pattern can line up with any token, the whole output is pattern-free. */
  lemma GreedyIsPatternFree(d: Dictionary, s: Bytes)
    requires WellFormed(d) && TokensNonEmpty(d) && NoPatternMeetsToken(d)
    ensures PatternFree(d, Greedy(d, s))
  {
    forall p, i: nat | p in d && OccursAt(p.bytes, Greedy(d, s), i)
      ensures false
    {
      var q, k := OutputOccurrenceMeetsToken(d, s, 0, p, i);
      TokenAtShows(Segments(d, s, 0), q, k);
      LinedUp(p.bytes, q.token, Greedy(d, s), i, k);
    }
  }

  lemma LinedUp(w: Bytes, t: Bytes, out: Bytes, i: nat, k: nat)
    requires OccursAt(w, out, i) && OccursAt(t, out, k) && Overlap(i, |w|, k, |t|)
    ensures MeetsAt(w, t, k - i) && CanMeet(w, t)
  {
    forall j | 0 <= j < |w| && 0 <= j - (k - i) < |t|
      ensures w[j] == t[j - (k - i)]
    {
      assert w[j] == out[i..][j] == out[i + j];
      assert t[i + j - k] == out[k..][i + j - k];
    }
  }

  const OPEN: byte := 0x5B   // '['
  const CLOSE: byte := 0x5D  // ']'

  /** The shape of every token: an opening bracket first, a closing bracket last. */
  ghost predicate Bracketed(t: Bytes) {
    2 <= |t| && t[0] == OPEN && t[|t| - 1] == CLOSE
  }

  ghost predicate TokensBracketed(d: Dictionary) {
    forall p :: p in d ==> Bracketed(p.token)
  }

  ghost predicate BracketFree(d: Dictionary) {
    forall p :: p in d ==> OPEN !in p.bytes && CLOSE !in p.bytes
  }

  ghost predicate NoPatternInsideToken(d: Dictionary) {
    forall q :: q in d ==> PatternFree(d, q.token)
  }

  /** A pattern that sticks out of a token on either side covers that bracket. */
  lemma StickingOutCoversBracket(w: Bytes, t: Bytes, k: int)
    requires Bracketed(t) && MeetsAt(w, t, k)
    ensures 0 <= k ==> OPEN in w
    ensures k + |t| <= |w| ==> CLOSE in w
  {
    if 0 <= k {
      assert w[k] == t[0];
    }
    if k + |t| <= |w| {
      assert w[k + |t| - 1] == t[|t| - 1];
    }
  }

  /** Patterns without brackets meet a token only by lying inside it. */
  lemma BracketFreeMeetsInside(w: Bytes, t: Bytes, k: int)
    requires Bracketed(t) && OPEN !in w && CLOSE !in w && MeetsAt(w, t, k)
    ensures k <= 0 && OccursAt(w, t, -k)
  {
    StickingOutCoversBracket(w, t, k);
    assert forall j :: 0 <= j < |w| ==> w[j] == t[-k..][j];
  }

  /** Wherever `w` can line up with `t`, it lies inside. There are finitely many places
      to look at. */
  ghost predicate StaysInside(w: Bytes, t: Bytes) {
    forall k :: MeetsAt(w, t, k) ==> k <= 0 && OccursAt(w, t, -k)
  }

  /** No pattern can stick out of a token on either side. */
  ghost predicate NoPatternSticksOut(d: Dictionary) {
    forall p, q :: p in d && q in d ==> StaysInside(p.bytes, q.token)
  }

  lemma BracketFreeStaysInside(d: Dictionary)
    requires TokensBracketed(d) && BracketFree(d)
    ensures NoPatternSticksOut(d)
  {
    forall p, q, k | p in d && q in d && MeetsAt(p.bytes, q.token, k)
      ensures k <= 0 && OccursAt(p.bytes, q.token, -k)
    {
      BracketFreeMeetsInside(p.bytes, q.token, k);
    }
  }

  /** When no pattern sticks out of a token, patterns and tokens meet only where a
      pattern is a factor of a token. */
  lemma InsideCriterion(d: Dictionary)
    requires WellFormed(d) && TokensNonEmpty(d) && NoPatternSticksOut(d)
    ensures NoPatternMeetsToken(d) <==> NoPatternInsideToken(d)
  {
    forall p, q | p in d && q in d && CanMeet(p.bytes, q.token)
      ensures !NoPatternInsideToken(d)
    {
      var k :| MeetsAt(p.bytes, q.token, k);
      assert OccursAt(p.bytes, q.token, -k);
    }
    forall p, q, i: nat | p in d && q in d && OccursAt(p.bytes, q.token, i)
      ensures CanMeet(p.bytes, q.token)
    {
      assert OccursAt(q.token, q.token, 0);
      LinedUp(p.bytes, q.token, q.token, i, 0);
    }
  }

  lemma FactorOfPatternFree(d: Dictionary, a: Bytes, b: Bytes, c: Bytes)
    requires PatternFree(d, a + b + c)
    ensures PatternFree(d, b)
  {
    forall p, i: nat | p in d && OccursAt(p.bytes, b, i)
      ensures false
    {
      assert (a + b + c)[|a| + i..] == b[i..] + c;
      assert OccursAt(p.bytes, a + b + c, |a| + i);
    }
  }
}
