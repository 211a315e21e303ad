/** Reading a buffer with the automaton: collecting the best match at every start,
    replacing greedily, and auditing an output buffer. */
module AhoScan {
  import opened Octets
  import opened Wrappers
  import opened Sequences
  import opened Patterns
  import opened GreedyRedaction
  import opened ConfinementAudit
  import opened AutomatonTheory
  import opened MatchCollection
  import opened AhoTrie
  import opened AhoLinks

  lemma CompiledParts(d: Dictionary, trie: Trie, root: AhoNode)
    requires Compiled(d, trie, root)
    ensures forall n: nat :: FailsOn(d, trie, UpToDepth(trie, n))
    ensures SuffixesOn(d, trie, trie.Keys)
  {
  }

  /** The node a walk is at, in terms of what it has read. */
  ghost predicate AtState(d: Dictionary, trie: Trie, state: AhoNode, s: Bytes, end: nat)
    requires end <= |s|
  {
    Filed(trie, state) && state.path == LongestSuffix(d, s[..end])
  }

  /** Read byte `i` of the buffer. */
  method ReadByte(ghost d: Dictionary, ghost trie: Trie, root: AhoNode, state: AhoNode, s: Bytes, i: nat)
    returns (next: AhoNode, ghost steps: nat)
    requires i < |s| && Compiled(d, trie, root) && AtState(d, trie, state, s, i)
    ensures AtState(d, trie, next, s, i + 1)
    ensures steps + |next.path| <= |state.path| + 1
  {
    hide Linked;
    hide Outputs;
    hide Spells;
    hide LongestSuffix;
    hide FailsAt;
    hide SuffixAt;
    CompiledParts(d, trie, root);
    StepLaw(d, s[..i], s[i]);
    assert s[..i + 1] == s[..i] + [s[i]];
    next, steps := Advance(d, trie, root, state, s[i]);
  }

  /** The suffix of `s[..end]` that a chain is visiting, and its length. */
  ghost predicate Visiting(trie: Trie, check: AhoNode?, s: Bytes, end: nat, c: nat)
    requires end <= |s|
  {
    if check == null then c == 0
    else Filed(trie, check) && |check.path| == c && c <= end && check.path == s[end - c..end]
  }

  lemma FollowSuffix(d: Dictionary, trie: Trie, root: AhoNode, check: AhoNode, s: Bytes, end: nat, c: nat)
    returns (next: nat)
    requires Compiled(d, trie, root) && end <= |s| && 0 < c && Visiting(trie, check, s, end, c)
    ensures next < c && Visiting(trie, check.dictSuffix, s, end, next)
    ensures NoneBetween(d, s, end, next, c)
    ensures next > 0 ==> IsPattern(d, s, end - next, end)
  {
    hide Linked;
    hide Outputs;
    hide Spells;
    hide FailsAt;
    hide DictSuffix;
    var x := check.path;
    assert SuffixAt(d, trie, x);
    NothingSkipped(d, s, end, c);
    next := if DictSuffix(d, x).Some? then |DictSuffix(d, x).value| else 0;
    if DictSuffix(d, x).Some? {
      DictSuffixIsNode(d, x);
      assert x[|x| - next..] == s[end - next..end];
    }
  }

  /** The cost of a chain: one step for the state, one for each pattern ending here. */
  lemma ChainCost(d: Dictionary, s: Bytes, end: nat, c: nat, next: nat)
    requires next < c <= end <= |s| && NoneBetween(d, s, end, next, c)
    ensures EndingCount(d, s, end - c, end)
         == (if IsPattern(d, s, end - c, end) then 1 else 0) + EndingCount(d, s, end - next, end)
  {
    forall j: nat | end - c + 1 <= j < end - next ensures !IsPattern(d, s, j, end) {
      assert next < end - j < c;
    }
    EndingCountSkips(d, s, end - c + 1, end - next, end);
  }

  /** The patterns that a chain has still to visit. */
  ghost function ChainFrom(d: Dictionary, check: AhoNode?): seq<PatternEntry> {
    if check == null then [] else ChainOf(d, check.path)
  }

  /** One link of the chain: the pattern of the node, if it has one, and then those of the
      chain from its link. */
  lemma ChainUnfolds(d: Dictionary, trie: Trie, root: AhoNode, check: AhoNode)
    requires Compiled(d, trie, root) && Filed(trie, check) && check != root
    ensures ChainFrom(d, check) ==
      (match check.output case Some(p) => [p] case None => []) + ChainFrom(d, check.dictSuffix)
  {
    hide Linked;
    hide Spells;
    hide FailsAt;
    hide DictSuffix;
    NotRoot(d, trie, root, check);
    assert SuffixAt(d, trie, check.path);
    if DictSuffix(d, check.path).Some? {
      DictSuffixIsNode(d, check.path);
    }
  }

  lemma ChainEnds(d: Dictionary, trie: Trie, root: AhoNode)
    requires Compiled(d, trie, root)
    ensures ChainFrom(d, root) == [] && ChainFrom(d, null) == []
  {
  }

  /** Visit the patterns that end at byte `i`, longest first, and record each of them. What
      is visited is the chain of the state: exactly the patterns that end here, each once. */
  method VisitChain(ghost d: Dictionary, ghost trie: Trie, root: AhoNode, state: AhoNode,
                    s: Bytes, i: nat, stopAt: int, table: MatchTable)
    returns (best: MatchTable, ghost steps: nat, ghost visited: seq<PatternEntry>)
    requires i < |s| && Compiled(d, trie, root) && AtState(d, trie, state, s, i + 1)
    requires WellFormed(d) && CollectedUpTo(d, s, stopAt, i, table)
    ensures CollectedUpTo(d, s, stopAt, i + 1, best)
    ensures forall p :: p in visited <==> p in d && |p.bytes| <= i + 1 && OccursAt(p.bytes, s, i + 1 - |p.bytes|)
    ensures forall k, l :: 0 <= k < l < |visited| ==> |visited[k].bytes| > |visited[l].bytes|
    ensures steps <= 1 + EndingCount(d, s, 0, i + 1)
  {
    hide Compiled;
    hide CollectedUpTo;
    hide Collected;
    hide NoneBetween;
    hide EndingCount;
    hide Record;
    hide PatternFor;
    hide LongestSuffix;
    hide ChainFrom;
    hide OccursAt;
    hide WellFormed;
    best, steps, visited := table, 0, [];
    var check: AhoNode? := state;
    ghost var c: nat := |state.path|;
    StateIsSuffix(d, trie, state, s, i + 1);
    NothingBeyondState(d, s, i + 1);
    CollectBegin(d, s, stopAt, i, c, best);
    StateCount(d, s, i + 1);
    assert [] + ChainFrom(d, check) == ChainFrom(d, check);
    while check != null && check != root
      invariant visited + ChainFrom(d, check) == ChainFrom(d, state)
      invariant c <= i + 1 && Visiting(trie, check, s, i + 1, c)
      invariant Collected(d, s, stopAt, i, c, best)
      invariant steps == 0 || c == 0 || IsPattern(d, s, i + 1 - c, i + 1)
      invariant steps + EndingCount(d, s, i + 1 - c, i + 1) <= EndingCount(d, s, 0, i + 1) + (if steps == 0 then 0 else 1)
      decreases c
    {
      NotRoot(d, trie, root, check);
      ghost var next := FollowSuffix(d, trie, root, check, s, i + 1, c);
      CollectVisit(d, s, stopAt, i, c, next, best);
      ChainCost(d, s, i + 1, c, next);
      OutputOf(d, trie, root, check);
      ChainUnfolds(d, trie, root, check);
      ghost var own := match check.output case Some(p) => [p] case None => [];
      ConcatAssociative(visited, own, ChainFrom(d, check.dictSuffix));
      visited := visited + own;
      if check.output.Some? {
        var matchLen := |check.output.value.bytes|;
        best := Record(best, i - matchLen + 1, stopAt, check.output.value);
      }
      steps, c := steps + 1, next;
      check := check.dictSuffix;
    }
    RootIsEmpty(d, trie, root);
    CollectEnd(d, s, stopAt, i, best);
    ChainEnds(d, trie, root);
    ChainIsVisited(d, trie, state, s, i + 1, visited);
  }

  lemma ChainIsVisited(d: Dictionary, trie: Trie, state: AhoNode, s: Bytes, end: nat, visited: seq<PatternEntry>)
    requires WellFormed(d) && end <= |s| && AtState(d, trie, state, s, end)
    requires visited + [] == ChainFrom(d, state)
    ensures forall p :: p in visited <==> p in d && |p.bytes| <= end && OccursAt(p.bytes, s, end - |p.bytes|)
    ensures forall k, l :: 0 <= k < l < |visited| ==> |visited[k].bytes| > |visited[l].bytes|
  {
    hide ChainOf;
    hide OccursAt;
    hide WellFormed;
    assert visited == ChainOf(d, state.path);
    ChainIsExact(d, state.path);
    forall p ensures p in visited <==> p in d && |p.bytes| <= end && OccursAt(p.bytes, s, end - |p.bytes|) {
      ChainAtState(d, s, end, p);
    }
  }

  lemma StateIsSuffix(d: Dictionary, trie: Trie, state: AhoNode, s: Bytes, end: nat)
    requires end <= |s| && AtState(d, trie, state, s, end)
    ensures Visiting(trie, state, s, end, |state.path|)
  {
    LongestSuffixSound(d, s[..end]);
    assert s[..end][end - |state.path|..] == s[end - |state.path|..end];
  }

  lemma StateCount(d: Dictionary, s: Bytes, end: nat)
    requires end <= |s|
    ensures EndingCount(d, s, end - |LongestSuffix(d, s[..end])|, end) == EndingCount(d, s, 0, end)
  {
    var k := end - |LongestSuffix(d, s[..end])|;
    forall j: nat | j < k ensures !IsPattern(d, s, j, end) {
      NothingLongerThanState(d, s, end, j);
    }
    EndingCountSkips(d, s, 0, k, end);
  }

  lemma NotRoot(d: Dictionary, trie: Trie, root: AhoNode, check: AhoNode)
    requires Compiled(d, trie, root) && Filed(trie, check) && check != root
    ensures check.path != []
  {
  }

  lemma RootIsEmpty(d: Dictionary, trie: Trie, root: AhoNode)
    requires Compiled(d, trie, root)
    ensures root.path == []
  {
  }

  lemma OutputOf(d: Dictionary, trie: Trie, root: AhoNode, node: AhoNode)
    requires Compiled(d, trie, root) && Filed(trie, node)
    ensures node.output == PatternFor(d, node.path)
    ensures node.output.Some? ==> node.output.value.bytes == node.path
  {
    PatternForSound(d, node.path);
  }

  /** Phase 1 of the replacement: walk the automaton once over the buffer and keep,
      for every start below `stopAt`, the longest pattern occurring there. The walk
      follows at most one failure link per byte read, and visits at most one node
      per byte beyond one node per pattern occurrence. */
  method CollectMatches(ghost d: Dictionary, ghost trie: Trie, root: AhoNode, input: Bytes, stopAt: int)
    returns (best: MatchTable, ghost failSteps: nat, ghost chainSteps: nat)
    requires Compiled(d, trie, root) && WellFormed(d)
    ensures CollectedUpTo(d, input, stopAt, |input|, best)
    ensures failSteps <= |input|
    ensures chainSteps <= |input| + Occurrences(d, input, |input|)
  {
    hide Compiled;
    hide CollectedUpTo;
    best, failSteps, chainSteps := map[], 0, 0;
    var state := root;
    CollectNothing(d, input, stopAt);
    RootStarts(d, trie, root, input);
    for i := 0 to |input|
      invariant AtState(d, trie, state, input, i)
      invariant CollectedUpTo(d, input, stopAt, i, best)
      invariant failSteps + |state.path| <= i
      invariant chainSteps <= i + Occurrences(d, input, i)
    {
      ghost var steps, visits, visited;
      state, steps := ReadByte(d, trie, root, state, input, i);
      best, visits, visited := VisitChain(d, trie, root, state, input, i, stopAt, best);
      failSteps, chainSteps := failSteps + steps, chainSteps + visits;
    }
  }

  lemma RootStarts(d: Dictionary, trie: Trie, root: AhoNode, s: Bytes)
    requires Compiled(d, trie, root)
    ensures AtState(d, trie, root, s, 0) && root.path == []
  {
    assert s[..0] == [];
  }

  /** The table answers as the reference pass does at every offset it asks about. */
  lemma TableIsHead(d: Dictionary, s: Bytes, stop: int, best: MatchTable, i: nat)
    requires i < |s| && i < stop && CollectedUpTo(d, s, stop, |s|, best)
    ensures Head(d, s, i) == if i in best then Replaced(best[i]) else Literal(s[i])
  {
    hide LongestAt;
  }

  /** Phase 2 of the replacement: copy bytes and put tokens, left to right. */
  method ReplaceGreedily(ghost d: Dictionary, input: Bytes, stopAt: nat, best: MatchTable)
    returns (output: Bytes, consumed: nat, matches: nat)
    requires stopAt <= |input| && CollectedUpTo(d, input, stopAt, |input|, best)
    ensures var segs := Cut(d, input, 0, stopAt);
            output == ShownAll(segs) && matches == MatchCount(segs)
    ensures consumed == CutEnd(d, input, 0, stopAt)
  {
    hide Head;
    hide CollectedUpTo;
    hide Cut;
    hide CutEnd;
    var outputParts: seq<Bytes> := [];
    var i := 0;
    matches := 0;
    ghost var segs := [];
    while i < stopAt
      invariant i <= |input|
      invariant Cut(d, input, 0, stopAt) == segs + Cut(d, input, i, stopAt)
      invariant CutEnd(d, input, 0, stopAt) == CutEnd(d, input, i, stopAt)
      invariant Flatten(outputParts) == ShownAll(segs) && matches == MatchCount(segs)
      decreases |input| - i
    {
      TableIsHead(d, input, stopAt, best, i);
      ghost var g := Head(d, input, i);
      CutUnfolds(d, input, i, stopAt);
      OneMore(segs, g, Cut(d, input, i + |g.Raw()|, stopAt));
      FlattenAppend(outputParts, g.Shown());
      segs := segs + [g];
      assert input[i..i + 1] == [input[i]];
      if i in best {
        outputParts := outputParts + [best[i].token];
        i := i + |best[i].bytes|;
        matches := matches + 1;
      } else {
        outputParts := outputParts + [input[i..i + 1]];
        i := i + 1;
      }
    }
    CutUnfolds(d, input, i, stopAt);
    assert segs + [] == segs;
    output, consumed := Flatten(outputParts), i;
  }

  lemma CutUnfolds(d: Dictionary, s: Bytes, i: nat, stop: int)
    requires i <= |s| && stop <= |s|
    ensures i >= stop ==> Cut(d, s, i, stop) == [] && CutEnd(d, s, i, stop) == i
    ensures i < stop ==>
      var g := Head(d, s, i);
      && Cut(d, s, i, stop) == [g] + Cut(d, s, i + |g.Raw()|, stop)
      && CutEnd(d, s, i, stop) == CutEnd(d, s, i + |g.Raw()|, stop)
  {
    hide Head;
  }

  lemma OneMore(segs: seq<Segment>, g: Segment, rest: seq<Segment>)
    ensures segs + ([g] + rest) == (segs + [g]) + rest
    ensures ShownAll(segs + [g]) == ShownAll(segs) + g.Shown()
    ensures MatchCount(segs + [g]) == MatchCount(segs) + if g.Replaced? then 1 else 0
  {
    Appended(segs, [g]);
    assert ShownAll([g]) == g.Shown() + [];
    assert MatchCount([g]) == if g.Replaced? then 1 else 0;
    ConcatAssociative(segs, [g], rest);
  }

  // ---- The audit of an output buffer ------------------------------------------

  lemma EndingUnfolds(d: Dictionary, s: Bytes, end: nat, c: nat, next: nat)
    requires next < c <= end <= |s| && NoneBetween(d, s, end, next, c)
    ensures var p := PatternFor(d, s[end - c..end]);
            LongestEnding(d, s, end - c, end) == if p.Some? then p else LongestEnding(d, s, end - next, end)
  {
    forall j | end - c + 1 <= j < end - next ensures PatternFor(d, s[j..end]).None? {
      assert next < end - j < c;
      assert !IsPattern(d, s, j, end);
    }
    LongestEndingSkips(d, s, end - c + 1, end - next, end);
  }

  lemma EndingFromState(d: Dictionary, s: Bytes, end: nat)
    requires end <= |s|
    ensures LongestEnding(d, s, end - |LongestSuffix(d, s[..end])|, end) == LongestEnding(d, s, 0, end)
  {
    var k := end - |LongestSuffix(d, s[..end])|;
    forall j | 0 <= j < k ensures PatternFor(d, s[j..end]).None? {
      NothingLongerThanState(d, s, end, j);
    }
    LongestEndingSkips(d, s, 0, k, end);
  }

  /** The longest pattern that ends at byte `i`, read off the state. */
  method FindEnding(ghost d: Dictionary, ghost trie: Trie, root: AhoNode, state: AhoNode, s: Bytes, i: nat)
    returns (p: Option<PatternEntry>)
    requires i < |s| && Compiled(d, trie, root) && AtState(d, trie, state, s, i + 1)
    ensures p == LongestEnding(d, s, 0, i + 1)
  {
    hide Compiled;
    hide NoneBetween;
    hide LongestSuffix;
    hide PatternFor;
    var check: AhoNode? := state;
    ghost var c: nat := |state.path|;
    StateIsSuffix(d, trie, state, s, i + 1);
    EndingFromState(d, s, i + 1);
    while check != null && check != root
      invariant c <= i + 1 && Visiting(trie, check, s, i + 1, c)
      invariant LongestEnding(d, s, i + 1 - c, i + 1) == LongestEnding(d, s, 0, i + 1)
      decreases c
    {
      NotRoot(d, trie, root, check);
      ghost var next := FollowSuffix(d, trie, root, check, s, i + 1, c);
      EndingUnfolds(d, s, i + 1, c, next);
      OutputOf(d, trie, root, check);
      if check.output.Some? {
        return check.output;
      }
      c, check := next, check.dictSuffix;
    }
    RootIsEmpty(d, trie, root);
    return None;
  }

  /** The audit reports the first violation of the output, and nothing when there is none. */
  method Audit(ghost d: Dictionary, ghost trie: Trie, root: AhoNode, output: Bytes) returns (v: Option<Violation>)
    requires Compiled(d, trie, root)
    ensures v == FirstViolation(d, output, 0)
  {
    hide Compiled;
    hide LongestEnding;
    var state := root;
    RootStarts(d, trie, root, output);
    NothingEndsAtStart(d, output);
    for i := 0 to |output|
      invariant AtState(d, trie, state, output, i)
      invariant LongestEnding(d, output, 0, i).None?
      invariant FirstViolation(d, output, 0) == FirstViolation(d, output, i)
    {
      ghost var steps;
      state, steps := ReadByte(d, trie, root, state, output, i);
      var p := FindEnding(d, trie, root, state, output, i);
      if p.Some? {
        return Some(Violation(p.value.secretName, i - |p.value.bytes| + 1));
      }
    }
    return None;
  }

  lemma NothingEndsAtStart(d: Dictionary, s: Bytes)
    ensures LongestEnding(d, s, 0, 0).None?
  {
  }
}
