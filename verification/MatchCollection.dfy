/** What the table of best matches holds while the automaton reads a buffer. After
    byte `i` the patterns ending there are visited longest first; `c` is the length
    of the suffix from which the visit has still to go on. */
module MatchCollection {
  import opened Octets
  import opened Wrappers
  import opened Patterns
  import opened ConfinementAudit
  import opened AutomatonTheory

  type MatchTable = map<nat, PatternEntry>

  /** The table is complete for the patterns that end by `end`: for every start below
      `stop` the longest pattern occurring there, and nothing else. */
  ghost predicate CollectedUpTo(d: Dictionary, s: Bytes, stop: int, end: nat, best: MatchTable)
    requires end <= |s|
  {
    && (forall st: nat :: st in best <==> st <= end && st < stop && LongestAt(d, s, st, end).Some?)
    && (forall st: nat :: st <= end && st in best ==> LongestAt(d, s, st, end) == Some(best[st]))
  }

  /** The end up to which start `st` is accounted for while suffixes of length at
      most `c` are still to be visited at byte `i`. */
  function AccountedUntil(st: nat, i: nat, c: nat): (e: nat)
    requires st <= i
    ensures st <= e <= i + 1
  {
    if i + 1 - st > c then i + 1 else i
  }

  ghost predicate Collected(d: Dictionary, s: Bytes, stop: int, i: nat, c: nat, best: MatchTable)
    requires i < |s|
  {
    && (forall st: nat :: st in best <==> st <= i && st < stop && LongestAt(d, s, st, AccountedUntil(st, i, c)).Some?)
    && (forall st: nat :: st <= i && st in best ==> LongestAt(d, s, st, AccountedUntil(st, i, c)) == Some(best[st]))
  }

  ghost predicate IsPattern(d: Dictionary, s: Bytes, j: nat, end: nat)
    requires j <= end <= |s|
  {
    PatternFor(d, s[j..end]).Some?
  }

  /** No suffix of `s[..end]` longer than `lo` and shorter than `hi` is a pattern. */
  ghost predicate NoneBetween(d: Dictionary, s: Bytes, end: nat, lo: nat, hi: nat)
    requires end <= |s|
  {
    forall j: nat :: j < end && lo < end - j < hi ==> !IsPattern(d, s, j, end)
  }

  /** Record a match unless an equally long or longer one starts there already. */
  function Record(best: MatchTable, start: int, stop: int, p: PatternEntry): MatchTable {
    if 0 <= start < stop && (start !in best || |p.bytes| > |best[start].bytes|) then best[start as nat := p] else best
  }

  lemma CollectNothing(d: Dictionary, s: Bytes, stop: int)
    ensures CollectedUpTo(d, s, stop, 0, map[])
  {
  }

  lemma CollectBegin(d: Dictionary, s: Bytes, stop: int, i: nat, c: nat, best: MatchTable)
    requires i < |s| && CollectedUpTo(d, s, stop, i, best)
    requires NoneBetween(d, s, i + 1, c, i + 2)
    ensures Collected(d, s, stop, i, c, best)
  {
    forall st: nat | st <= i
      ensures LongestAt(d, s, st, AccountedUntil(st, i, c)) == LongestAt(d, s, st, i)
    {
      assert c < i + 1 - st ==> !IsPattern(d, s, st, i + 1);
    }
  }

  lemma SeenUnchanged(d: Dictionary, s: Bytes, i: nat, c: nat, next: nat, st: nat)
    requires i < |s| && next < c <= i + 1 && NoneBetween(d, s, i + 1, next, c)
    requires st <= i && i + 1 - st != c
    ensures LongestAt(d, s, st, AccountedUntil(st, i, next)) == LongestAt(d, s, st, AccountedUntil(st, i, c))
  {
    assert next < i + 1 - st < c ==> !IsPattern(d, s, st, i + 1);
  }

  /** Visiting the suffix of length `c` and moving on to the next pattern suffix. */
  lemma CollectVisit(d: Dictionary, s: Bytes, stop: int, i: nat, c: nat, next: nat, best: MatchTable)
    requires i < |s| && next < c <= i + 1 && Collected(d, s, stop, i, c, best)
    requires NoneBetween(d, s, i + 1, next, c)
    ensures var p := PatternFor(d, s[i + 1 - c..i + 1]);
            Collected(d, s, stop, i, next, if p.Some? then Record(best, i + 1 - |p.value.bytes|, stop, p.value) else best)
  {
    var start := i + 1 - c;
    var p := PatternFor(d, s[start..i + 1]);
    PatternForSound(d, s[start..i + 1]);
    SeenAfterVisit(d, s, i, c);
    hide LongestAt;
    hide PatternFor;
    forall st: nat | st <= i && st != start
      ensures LongestAt(d, s, st, AccountedUntil(st, i, next)) == LongestAt(d, s, st, AccountedUntil(st, i, c))
    {
      SeenUnchanged(d, s, i, c, next, st);
    }
    hide NoneBetween;
    assert AccountedUntil(start, i, c) == i && AccountedUntil(start, i, next) == i + 1;
    hide AccountedUntil;
  }

  lemma SeenAfterVisit(d: Dictionary, s: Bytes, i: nat, c: nat)
    requires i < |s| && 0 < c <= i + 1
    ensures var start := i + 1 - c;
            var p := PatternFor(d, s[start..i + 1]);
            LongestAt(d, s, start, i + 1) == if p.Some? then p else LongestAt(d, s, start, i)
  {
  }

  lemma CollectEnd(d: Dictionary, s: Bytes, stop: int, i: nat, best: MatchTable)
    requires i < |s| && Collected(d, s, stop, i, 0, best)
    ensures CollectedUpTo(d, s, stop, i + 1, best)
  {
    forall st: nat | st <= i ensures AccountedUntil(st, i, 0) == i + 1 {
    }
  }

  /** The state reached is the longest suffix that can be a pattern. */
  lemma NothingBeyondState(d: Dictionary, s: Bytes, end: nat)
    requires 0 < end <= |s|
    ensures NoneBetween(d, s, end, |LongestSuffix(d, s[..end])|, end + 1)
  {
    forall j: nat | j < end && |LongestSuffix(d, s[..end])| < end - j
      ensures !IsPattern(d, s, j, end)
    {
      NothingLongerThanState(d, s, end, j);
    }
  }

  /** The dictionary-suffix link skips no pattern. */
  lemma NothingSkipped(d: Dictionary, s: Bytes, end: nat, c: nat)
    requires 0 < c <= end <= |s|
    ensures var x := s[end - c..end];
            NoneBetween(d, s, end, if DictSuffix(d, x).Some? then |DictSuffix(d, x).value| else 0, c)
  {
    var x := s[end - c..end];
    forall j: nat | j < end && end - j < c && IsPattern(d, s, j, end)
      ensures DictSuffix(d, x).Some? && end - j <= |DictSuffix(d, x).value|
    {
      var w := s[j..end];
      PatternForSound(d, w);
      assert x[c - |w|..] == w;
      LongestEndingIsComplete(d, x, 1, c, PatternFor(d, w).value);
    }
  }

  // ---- Counting occurrences, to bound the length of the chains -----------------

  /** How many patterns end at `end` and start at or after `k`. */
  function EndingCount(d: Dictionary, s: Bytes, k: nat, end: nat): nat
    requires k <= end <= |s|
    decreases end - k
  {
    if k == end then 0
    else (if PatternFor(d, s[k..end]).Some? then 1 else 0) + EndingCount(d, s, k + 1, end)
  }

  /** How many pattern occurrences there are in `s[..end]`. */
  function Occurrences(d: Dictionary, s: Bytes, end: nat): nat
    requires end <= |s|
  {
    if end == 0 then 0 else Occurrences(d, s, end - 1) + EndingCount(d, s, 0, end)
  }

  lemma {:induction false} EndingCountSkips(d: Dictionary, s: Bytes, k: nat, m: nat, end: nat)
    requires k <= m <= end <= |s|
    requires forall j: nat :: k <= j < m ==> !IsPattern(d, s, j, end)
    ensures EndingCount(d, s, k, end) == EndingCount(d, s, m, end)
    decreases m - k
  {
    if k == m {
    } else {
      assert !IsPattern(d, s, k, end);
      EndingCountSkips(d, s, k + 1, m, end);
    }
  }

  function EndingStarts(d: Dictionary, s: Bytes, k: nat, end: nat): set<nat>
    requires k <= end <= |s|
  {
    set j: nat | k <= j < end && PatternFor(d, s[j..end]).Some?
  }

  /** The count is the number of places where a pattern starts that ends at `end`. */
  lemma {:induction false} EndingCountCounts(d: Dictionary, s: Bytes, k: nat, end: nat)
    requires k <= end <= |s|
    ensures EndingCount(d, s, k, end) == |EndingStarts(d, s, k, end)|
    decreases end - k
  {
    if k == end {
      assert EndingStarts(d, s, k, end) == {};
    } else {
      EndingCountCounts(d, s, k + 1, end);
      var rest := EndingStarts(d, s, k + 1, end);
      if PatternFor(d, s[k..end]).Some? {
        assert EndingStarts(d, s, k, end) == rest + {k} && k !in rest;
      } else {
        assert EndingStarts(d, s, k, end) == rest;
      }
    }
  }
}
