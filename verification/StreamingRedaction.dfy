/** The redaction engine itself: fields updated call by call, a shared compiled
    automaton, and per-stream instances of it. */
module StreamingRedaction {
  import opened Octets
  import opened Wrappers
  import opened Sequences
  import opened Patterns
  import opened GreedyRedaction
  import opened ConfinementAudit
  import opened MatchCollection
  import opened DictionaryEntries
  import opened RedactionTokens
  import opened RedactionStream
  import opened AhoTrie
  import opened AhoLinks
  import opened AhoScan

  class StreamingRedactionEngine {
    var patterns: Dictionary
    var root: AhoNode
    var carryover: Bytes
    var maxPatternLen: nat
    var metrics: Metrics
    var halted: bool
    ghost var trie: Trie

    /** The automaton is compiled from the patterns, and `maxPatternLen` bounds them. */
    ghost predicate Valid()
      reads this, trie.Values
    {
      ValidRules(CurrentRules()) && Compiled(patterns, trie, root)
    }

    function CurrentRules(): Rules
      reads this`patterns, this`maxPatternLen
    {
      Rules(patterns, maxPatternLen)
    }

    function State(): Stream
      reads this`carryover, this`halted, this`metrics
    {
      Stream(carryover, halted, metrics)
    }

    constructor (secrets: seq<Secret>)
      requires Encoded(secrets)
      ensures Valid() && State() == FRESH
      ensures CurrentRules() == Rules(Entries(secrets), Longest(KeepFirst(Candidates(secrets)), 0))
      ensures forall w :: w in trie ==> fresh(trie[w])
    {
      var emptyRoot := new AhoNode.Root();
      patterns, root, carryover, maxPatternLen := [], emptyRoot, [], 0;
      metrics, halted, trie := FRESH.metrics, false, map[];
      new;
      BuildDictionary(secrets);
    }

    /** Gather the entries, sort them, compile them. The old automaton is replaced,
        never changed; `maxPatternLen` only ever grows. */
    method BuildDictionary(secrets: seq<Secret>)
      requires Encoded(secrets)
      modifies this`patterns, this`root, this`maxPatternLen, this`trie
      ensures Valid()
      ensures patterns == Entries(secrets)
      ensures forall p :: p in patterns ==> SpellsName(p.token, p.secretName)
      ensures maxPatternLen == Longest(KeepFirst(Candidates(secrets)), old(maxPatternLen))
      ensures forall w :: w in trie ==> fresh(trie[w])
    {
      hide Compiled;
      hide LongestFirst;
      hide Candidates;
      hide KeepFirst;
      hide SpellsName;
      var entries := GatherEntries(secrets);
      EntriesAreRight(secrets);
      AllTokensSpellNames(secrets);
      LongestBounds(entries, old(maxPatternLen));
      SortDescending(entries);
      patterns := LongestFirst(entries);
      root, trie := Compile(patterns);
    }

    method GatherEntries(secrets: seq<Secret>) returns (entries: Dictionary)
      modifies this`maxPatternLen
      ensures entries == KeepFirst(Candidates(secrets))
      ensures maxPatternLen == Longest(entries, old(maxPatternLen))
    {
      hide Seen;
      entries := [];
      var seen: set<Bytes> := {};
      ghost var before := maxPatternLen;
      NothingSeen();
      for i := 0 to |secrets|
        invariant entries == KeepFirst(Candidates(secrets[..i]))
        invariant Seen(entries, seen)
        invariant maxPatternLen == Longest(entries, before)
      {
        var s := secrets[i];
        CandidatesAppend(secrets, i);
        if s.valueLength < MIN_VALUE_LENGTH {
          assert Candidates(secrets[..i]) + [] == Candidates(secrets[..i]);
          continue;
        }
        entries, seen := AddVariants(Candidates(secrets[..i]), s, entries, seen, before);
      }
      assert secrets[..|secrets|] == secrets;
    }

    /** Add the variants of one secret whose bytes have not been seen before. */
    method AddVariants(ghost done: Dictionary, s: Secret, entries: Dictionary, seen: set<Bytes>, ghost before: nat)
      returns (entries': Dictionary, seen': set<Bytes>)
      requires entries == KeepFirst(done) && Seen(entries, seen)
      requires maxPatternLen == Longest(entries, before)
      modifies this`maxPatternLen
      ensures entries' == KeepFirst(done + Variants(s, |s.variants|)) && Seen(entries', seen')
      ensures maxPatternLen == Longest(entries', before)
    {
      hide KeepFirst;
      hide Longest;
      hide Token;
      hide SpellsName;
      entries', seen' := entries, seen;
      assert done + [] == done;
      for j := 0 to |s.variants|
        invariant entries' == KeepFirst(done + Variants(s, j)) && Seen(entries', seen')
        invariant maxPatternLen == Longest(entries', before)
      {
        var bytes := s.variants[j];
        var entry := PatternEntry(bytes, Token(s.name), s.name);
        ConcatAssociative(done, Variants(s, j), [entry]);
        KeepFirstAppend(done + Variants(s, j), entry);
        assert bytes in seen' <==> PatternFor(entries', bytes).Some?;
        if bytes in seen' {
          continue;
        }
        SeenAppend(entries', seen', entry);
        LongestAppend(entries', entry, before);
        entries', seen' := entries' + [entry], seen' + {bytes};
        if |bytes| > maxPatternLen {
          maxPatternLen := |bytes|;
        }
      }
    }

    /** The replacement: collect matches, then copy and replace up to `stopAt`. */
    method AhoReplace(input: Bytes, stopAt: nat)
      returns (output: Bytes, consumed: nat, matches: nat, ghost failSteps: nat, ghost chainSteps: nat)
      requires Valid() && stopAt <= |input|
      ensures var segs := Cut(patterns, input, 0, stopAt);
              output == ShownAll(segs) && matches == MatchCount(segs)
      ensures consumed == CutEnd(patterns, input, 0, stopAt)
      ensures failSteps <= |input| && chainSteps <= |input| + Occurrences(patterns, input, |input|)
    {
      hide Compiled;
      var best;
      best, failSteps, chainSteps := CollectMatches(patterns, trie, root, input, stopAt);
      output, consumed, matches := ReplaceGreedily(patterns, input, stopAt, best);
    }

    method ConfinementAudit(output: Bytes) returns (v: Option<Violation>)
      requires Valid()
      ensures v == FirstViolation(patterns, output, 0)
    {
      hide Compiled;
      if |output| == 0 || |patterns| == 0 {
        NoViolation(patterns, output, 0);
        return None;
      }
      v := Audit(patterns, trie, root, output);
    }

    /** One chunk of the response. */
    method Process(chunk: Bytes) returns (out: Bytes)
      requires Valid()
      modifies this`carryover, this`metrics, this`halted
      ensures Valid()
      ensures (State(), out) == RedactionStream.Process(CurrentRules(), old(State()), chunk)
    {
      hide Compiled;
      hide Cut;
      hide CutEnd;
      hide ValidRules;
      hide ShownAll;
      hide MatchCount;
      hide FirstViolation;
      if halted {
        return [];
      }
      if |patterns| == 0 {
        metrics := metrics.(bytesProcessed := metrics.bytesProcessed + |chunk|,
                            bytesEmitted := metrics.bytesEmitted + |chunk|);
        return chunk;
      }
      var combined := if |carryover| > 0 then carryover + chunk else chunk;
      assert combined == carryover + chunk;
      var tailLen: int := if maxPatternLen - 1 < |combined| then maxPatternLen - 1 else |combined|;
      var stopAt := |combined| - tailLen;
      PositiveBound(CurrentRules());
      if stopAt <= 0 {
        NothingBefore(patterns, combined, stopAt);
        assert combined[0..] == combined;
        carryover := combined;
        metrics := metrics.(bytesProcessed := metrics.bytesProcessed + |chunk|);
        return [];
      }
      var output, consumed, matches, failSteps, chainSteps := AhoReplace(combined, stopAt);
      carryover := combined[consumed..];
      metrics := metrics.(bytesProcessed := metrics.bytesProcessed + |chunk|,
                          bytesEmitted := metrics.bytesEmitted + |output|,
                          matchCount := metrics.matchCount + matches);
      var violation := ConfinementAudit(output);
      if violation.Some? {
        metrics := metrics.(confinementViolations := metrics.confinementViolations + 1);
        halted := true;
        return [];
      }
      return output;
    }

    /** What is left after the last chunk. */
    method Flush() returns (out: Bytes)
      requires Valid()
      modifies this`carryover, this`metrics, this`halted
      ensures Valid()
      ensures (State(), out) == RedactionStream.Flush(CurrentRules(), old(State()))
    {
      hide Compiled;
      hide Cut;
      hide FirstViolation;
      if halted {
        return [];
      }
      if |carryover| == 0 {
        return [];
      }
      if |patterns| == 0 {
        out := carryover;
        metrics := metrics.(bytesEmitted := metrics.bytesEmitted + |out|);
        carryover := [];
        return;
      }
      var output, consumed, matches, failSteps, chainSteps := AhoReplace(carryover, |carryover|);
      carryover := [];
      metrics := metrics.(bytesEmitted := metrics.bytesEmitted + |output|,
                          matchCount := metrics.matchCount + matches);
      var violation := ConfinementAudit(output);
      if violation.Some? {
        metrics := metrics.(confinementViolations := metrics.confinementViolations + 1);
        halted := true;
        return [];
      }
      return output;
    }

    /** Swap the dictionary: a new automaton, and a fresh stream. */
    method UpdateDictionary(secrets: seq<Secret>)
      requires Encoded(secrets)
      modifies this
      ensures Valid() && State() == FRESH
      ensures CurrentRules() == Rules(Entries(secrets), Longest(KeepFirst(Candidates(secrets)), old(maxPatternLen)))
      ensures maxPatternLen >= old(maxPatternLen)
      ensures forall w :: w in trie ==> fresh(trie[w])
    {
      hide Compiled;
      hide ValidRules;
      hide Entries;
      hide Longest;
      BuildDictionary(secrets);
      carryover, halted, metrics := [], false, FRESH.metrics;
    }

    predicate HasPatterns()
      reads this`patterns
    {
      |patterns| > 0
    }

    /** A stream of its own over the same automaton. */
    constructor StreamInstance(parent: StreamingRedactionEngine)
      requires parent.Valid()
      ensures Valid() && State() == FRESH && CurrentRules() == parent.CurrentRules()
      ensures root == parent.root && trie == parent.trie
    {
      patterns, root, maxPatternLen, trie := parent.patterns, parent.root, parent.maxPatternLen, parent.trie;
      carryover, halted, metrics := [], false, FRESH.metrics;
    }
  }

  lemma {:induction false} NoViolation(d: Dictionary, s: Bytes, end: nat)
    requires end <= |s| && (s == [] || d == [])
    ensures FirstViolation(d, s, end) == None
    decreases |s| - end
  {
    NoEnding(d, s, 0, end);
    if end >= |s| {
    } else {
      NoViolation(d, s, end + 1);
    }
  }

  lemma {:induction false} NoEnding(d: Dictionary, s: Bytes, i: nat, end: nat)
    requires i <= end <= |s| && (s == [] || d == [])
    ensures LongestEnding(d, s, i, end) == None
    decreases end - i
  {
    if i == end {
    } else {
      NoEnding(d, s, i + 1, end);
    }
  }

  lemma NothingSeen()
    ensures Seen([], {})
  {
  }
}
