/** The stream theorems for dictionaries as they are built from secrets. */
module SecretTheorems {
  import opened Octets
  import opened Sequences
  import opened Patterns
  import opened GreedyRedaction
  import opened OutputSafety
  import opened DictionaryEntries
  import opened RedactionStream
  import opened ReleasedSteps
  import opened HaltingTheorems
  import opened HaltingOfCuts
  import opened ShortStreams

  /** No variant of a secret that is kept contains a square bracket. */
  ghost predicate NoBrackets(secrets: seq<Secret>) {
    forall s, v :: s in secrets && s.valueLength >= MIN_VALUE_LENGTH && v in s.variants ==> OPEN !in v && CLOSE !in v
  }

  lemma EntriesAreBracketFree(secrets: seq<Secret>)
    requires Encoded(secrets) && NoBrackets(secrets)
    ensures BracketFree(Entries(secrets))
  {
    forall p | p in Entries(secrets) ensures OPEN !in p.bytes && CLOSE !in p.bytes {
      KeepFirstDistinct(Candidates(secrets));
      SortDescending(KeepFirst(Candidates(secrets)));
      CandidatesComplete(secrets, p);
    }
  }

  /** For secrets whose variants cannot stick out of a token, the cut of a stream plays
      no part in whether it is halted, and some stream is halted exactly when some kept
      variant is a factor of some token. */
  lemma SecretsHaltExactly(secrets: seq<Secret>, bound: nat, chunks: seq<Bytes>)
    requires Encoded(secrets) && NoPatternSticksOut(Entries(secrets)) && Bounded(Entries(secrets), bound)
    ensures var d := Entries(secrets);
            && (NeverHalts(Rules(d, bound)) <==> NoPatternInsideToken(d))
            && (RunToEnd(Rules(d, bound), chunks).0.halted <==>
                  exists g :: g in Segments(d, Flatten(chunks), 0) && g.Replaced? && !PatternFree(d, g.entry.token))
  {
    hide Entries;
    hide Segments;
    hide RunToEnd;
    EntriesAreRight(secrets);
    NeverHaltsExactly(Rules(Entries(secrets), bound));
    HaltedExactly(Rules(Entries(secrets), bound), chunks);
  }

  /** For any secrets: whether some stream can be halted is decided by single chunks of at
      most the square of the pattern bound; and all cuts of a stream are halted alike
      exactly when its first steps show no pattern but inside their tokens, or it is
      halted anyhow. */
  lemma AnySecretsHaltExactly(secrets: seq<Secret>, bound: nat, s: Bytes)
    requires Encoded(secrets) && Bounded(Entries(secrets), bound)
    ensures var r := Rules(Entries(secrets), bound);
            && (NeverHalts(r) <==> forall t :: |t| <= bound * bound ==> !RunToEnd(r, [t]).0.halted)
            && ((forall a, b :: Flatten(a) == s && Flatten(b) == s ==> RunToEnd(r, a).0.halted == RunToEnd(r, b).0.halted)
                  <==> (!PatternFree(r.patterns, ShownAll(First(r, s))) ==> HaltsAnyhow(r, s)))
  {
    hide Entries;
    hide RunToEnd;
    hide First;
    hide Last;
    hide PatternFree;
    EntriesAreRight(secrets);
    ShortStreamsDecide(Rules(Entries(secrets), bound));
    CutMattersExactly(Rules(Entries(secrets), bound), s);
  }

  /** Secrets without square brackets in any kept variant are of the former kind. */
  lemma WithoutBracketsNothingSticksOut(secrets: seq<Secret>)
    requires Encoded(secrets) && NoBrackets(secrets)
    ensures NoPatternSticksOut(Entries(secrets))
  {
    EntriesAreRight(secrets);
    EntriesAreBracketFree(secrets);
    BracketFreeStaysInside(Entries(secrets));
  }

  const REDA: Bytes := [0x52, 0x45, 0x44, 0x41]

  /** A kept secret with the variant "REDA" halts the stream that consists of these four
      bytes: whichever token replaces them contains them. */
  lemma SecretInsideEveryTokenHalts(secrets: seq<Secret>, s: Secret, bound: nat)
    requires Encoded(secrets) && Bounded(Entries(secrets), bound)
    requires s in secrets && s.valueLength >= MIN_VALUE_LENGTH && REDA in s.variants
    ensures RunToEnd(Rules(Entries(secrets), bound), [REDA]).0.halted
  {
    hide Entries;
    hide RunToEnd;
    var d := Entries(secrets);
    EntriesAreRight(secrets);
    CandidatesComplete(secrets, PatternEntry(REDA, Token(s.name), s.name));
    assert EntryOf(s, PatternEntry(REDA, Token(s.name), s.name));
    PatternForSound(Candidates(secrets), REDA);
    PatternForSound(d, REDA);
    var q := PatternFor(d, REDA).value;
    assert q in Candidates(secrets);
    CandidatesComplete(secrets, q);
    assert q.token[1..][..4] == REDA;
    assert OccursAt(REDA, q.token, 1);
    TokenWithPatternHalts(Rules(d, bound), q);
  }

  /** Every occurrence of every variant of a kept secret starts inside a replaced span
      of the stream, however the stream arrives. */
  lemma EveryVariantIsReplaced(secrets: seq<Secret>, s: Secret, v: Bytes, stream: Bytes, i: nat)
    requires Encoded(secrets) && s in secrets && s.valueLength >= MIN_VALUE_LENGTH && v in s.variants
    requires OccursAt(v, stream, i)
    ensures InReplacedSpan(Segments(Entries(secrets), stream, 0), i)
  {
    var d := Entries(secrets);
    var candidate := PatternEntry(v, Token(s.name), s.name);
    EntriesAreRight(secrets);
    CandidatesComplete(secrets, candidate);
    assert EntryOf(s, candidate);
    PatternForSound(Candidates(secrets), v);
    PatternForSound(d, v);
    InputOccurrenceIsReplaced(d, stream, 0, PatternFor(d, v).value, i);
  }
}
