/** Whether a stream is halted can depend on how it was cut, once a pattern can stick out
    of a token: the audit looks at one output buffer at a time, so a token and the text
    that follows it are only seen together when they are released together. */
module ChunkedHalt {
  import opened Octets
  import opened Sequences
  import opened Patterns
  import opened GreedyRedaction
  import opened OutputSafety
  import opened ConfinementAudit
  import opened DictionaryEntries
  import opened RedactionStream
  import opened StreamTheorems

  // Two secrets, with the values "1111" and "]777", and their encoded variants.

  const ONES: Bytes := [0x31, 0x31, 0x31, 0x31]
  const ONES_BASE64: Bytes := [0x4D, 0x54, 0x45, 0x78, 0x4D, 0x51, 0x3D, 0x3D]
  const ONES_HEX: Bytes := [0x33, 0x31, 0x33, 0x31, 0x33, 0x31, 0x33, 0x31]
  const SEVENS: Bytes := [0x5D, 0x37, 0x37, 0x37]
  const SEVENS_BASE64: Bytes := [0x58, 0x54, 0x63, 0x33, 0x4E, 0x77, 0x3D, 0x3D]
  const SEVENS_URL: Bytes := [0x25, 0x35, 0x44, 0x37, 0x37, 0x37]
  const SEVENS_HEX: Bytes := [0x35, 0x64, 0x33, 0x37, 0x33, 0x37, 0x33, 0x37]

  const A: Bytes := [0x41]
  const B: Bytes := [0x42]
  const SECRET_A := Secret(A, 4, [ONES, ONES_BASE64, ONES_HEX])
  const SECRET_B := Secret(B, 4, [SEVENS, SEVENS_BASE64, SEVENS_URL, SEVENS_HEX])
  const SECRETS := [SECRET_A, SECRET_B]

  const TOKEN: Bytes := [0x5B, 0x52, 0x45, 0x44, 0x41, 0x43, 0x54, 0x45, 0x44, 0x3A, 0x41, 0x5D] // "[REDACTED:A]"
  const ONES_ENTRY := PatternEntry(ONES, TOKEN, A)
  const SEVENS_ENTRY := PatternEntry(SEVENS, Token(B), B)
  const RULES := Rules(Entries(SECRETS), 8)

  /** The bytes with which some pattern starts. */
  const FIRSTS: set<byte> := {0x31, 0x4D, 0x33, 0x5D, 0x58, 0x25, 0x35}

  ghost predicate Known(p: PatternEntry) {
    && 4 <= |p.bytes| <= 8 && p.bytes[0] in FIRSTS
    && (p.bytes[0] == 0x31 ==> p == ONES_ENTRY)
    && (p.bytes[0] == CLOSE ==> p.bytes == SEVENS)
  }

  lemma VariantsKnown(v: Bytes, t: Bytes, name: Bytes)
    requires (v in SECRET_A.variants && t == TOKEN && name == A) || v in SECRET_B.variants
    ensures Known(PatternEntry(v, t, name))
  {
  }

  lemma TokenOfA()
    ensures Token(A) == TOKEN
  {
  }

  lemma SecretsEncoded()
    ensures Encoded(SECRETS)
  {
    forall s | s in SECRETS ensures [] !in s.variants {
      assert s == SECRET_A || s == SECRET_B;
    }
  }

  lemma EntriesKnown(p: PatternEntry)
    ensures p in RULES.patterns ==> Known(p)
    ensures p == ONES_ENTRY || p == SEVENS_ENTRY || p == PatternEntry(ONES_HEX, TOKEN, A) ==> p in RULES.patterns
  {
    hide Candidates;
    hide KeepFirst;
    hide Known;
    hide LongestFirst;
    hide Token;
    SecretsEncoded();
    TokenOfA();
    KeepFirstDistinct(Candidates(SECRETS));
    SortDescending(KeepFirst(Candidates(SECRETS)));
    CandidatesComplete(SECRETS, p);
    if p in RULES.patterns {
      var s :| s in SECRETS && EntryOf(s, p);
      assert s == SECRET_A || s == SECRET_B;
      VariantsKnown(p.bytes, p.token, p.secretName);
    }
    if p == ONES_ENTRY || p == PatternEntry(ONES_HEX, TOKEN, A) {
      assert p.bytes in SECRET_A.variants && SECRET_A in SECRETS;
      FirstSecretWins(SECRETS, 0, p.bytes);
      PatternForSound(RULES.patterns, p.bytes);
    } else if p == SEVENS_ENTRY {
      assert SEVENS in SECRET_B.variants && SECRETS[1] == SECRET_B;
      FirstSecretWins(SECRETS, 1, SEVENS);
      PatternForSound(RULES.patterns, SEVENS);
    }
  }

  /** These are the rules of a new engine for the two secrets. */
  lemma RulesAreBuilt()
    ensures ValidRules(RULES)
    ensures RULES == Rules(Entries(SECRETS), Longest(KeepFirst(Candidates(SECRETS)), 0))
  {
    hide Entries;
    hide Known;
    SecretsEncoded();
    EntriesAreRight(SECRETS);
    forall p | p in RULES.patterns ensures |p.bytes| <= 8 {
      EntriesKnown(p);
      KnownLength(p);
    }
    LongestIsEight();
  }

  lemma KnownLength(p: PatternEntry)
    requires Known(p)
    ensures 4 <= |p.bytes| <= 8
  {
  }

  lemma LongestIsEight()
    ensures Longest(KeepFirst(Candidates(SECRETS)), 0) == 8
  {
    hide Candidates;
    hide KeepFirst;
    hide Longest;
    hide LongestFirst;
    hide Known;
    var kept := KeepFirst(Candidates(SECRETS));
    LongestBounds(kept, 0);
    SortDescending(kept);
    var long := PatternEntry(ONES_HEX, TOKEN, A);
    EntriesKnown(long);
    assert long in kept;
    forall p | p in kept ensures |p.bytes| <= 8 {
      EntriesKnown(p);
      KnownLength(p);
    }
  }

  // ---- Scanning -----------------------------------------------------------------------

  lemma LiteralHere(s: Bytes, i: nat)
    requires i < |s| && s[i] !in FIRSTS
    ensures Head(RULES.patterns, s, i) == Literal(s[i])
  {
    hide Entries;
    if LongestAt(RULES.patterns, s, i, |s|).Some? {
      LongestAtSound(RULES.patterns, s, i, |s|);
      EntriesKnown(LongestAt(RULES.patterns, s, i, |s|).value);
    }
  }

  lemma SecretHere(s: Bytes)
    requires ONES <= s
    ensures Head(RULES.patterns, s, 0) == Replaced(ONES_ENTRY)
  {
    hide Entries;
    EntriesKnown(ONES_ENTRY);
    LongestAtIsLongest(RULES.patterns, s, 0, |s|, ONES_ENTRY);
    LongestAtSound(RULES.patterns, s, 0, |s|);
    EntriesKnown(LongestAt(RULES.patterns, s, 0, |s|).value);
    assert s[0] == ONES[0];
  }

  lemma {:induction false} LiteralsOnly(s: Bytes, i: nat, stop: nat)
    requires i <= stop <= |s| && forall k :: i <= k < stop ==> s[k] !in FIRSTS
    ensures ShownAll(Cut(RULES.patterns, s, i, stop)) == s[i..stop]
    ensures CutEnd(RULES.patterns, s, i, stop) == stop
    decreases stop - i
  {
    hide Head;
    hide Entries;
    if i == stop {
    } else {
      LiteralHere(s, i);
      LiteralsOnly(s, i + 1, stop);
      assert s[i..stop] == [s[i]] + s[i + 1..stop];
    }
  }

  /** The first chunk of either run: the secret is replaced, literals follow up to `stop`. */
  lemma SecretThenLiterals(s: Bytes, stop: nat)
    requires ONES <= s && 0 < stop <= |s| && forall k :: 4 <= k < stop ==> s[k] !in FIRSTS
    ensures ShownAll(Cut(RULES.patterns, s, 0, stop)) == TOKEN + if stop < 4 then [] else s[4..stop]
    ensures CutEnd(RULES.patterns, s, 0, stop) == if stop < 4 then 4 else stop
  {
    hide Head;
    hide Entries;
    SecretHere(s);
    assert Cut(RULES.patterns, s, 0, stop) == [Replaced(ONES_ENTRY)] + Cut(RULES.patterns, s, 4, stop);
    if stop >= 4 {
      LiteralsOnly(s, 4, stop);
    }
  }

  lemma OccurrenceStarts(w: Bytes, out: Bytes, i: nat)
    requires 2 <= |w| && OccursAt(w, out, i)
    ensures i + 1 < |out| && out[i] == w[0] && out[i + 1] == w[1]
  {
    assert out[i..][0] == w[0] && out[i..][1] == w[1];
  }

  /** A buffer in which no pattern starts, except that it may hold a closing bracket that
      no 7 follows. */
  lemma Clean(out: Bytes)
    requires forall i :: 0 <= i < |out| && out[i] in FIRSTS ==> out[i] == CLOSE && (i + 1 < |out| ==> out[i + 1] != 0x37)
    ensures FirstViolation(RULES.patterns, out, 0).None?
  {
    hide Entries;
    hide FirstViolation;
    forall p, i: nat | p in RULES.patterns && OccursAt(p.bytes, out, i)
      ensures false
    {
      EntriesKnown(p);
      OccurrenceStarts(p.bytes, out, i);
    }
    RulesAreBuilt();
    AuditDecides(RULES.patterns, out);
  }

  // ---- The two runs ---------------------------------------------------------------------

  /** "11117770" and "000000". */
  const FIRST: Bytes := [0x31, 0x31, 0x31, 0x31, 0x37, 0x37, 0x37, 0x30]
  const SECOND: Bytes := [0x30, 0x30, 0x30, 0x30, 0x30, 0x30]
  const WHOLE: Bytes := FIRST + SECOND
  const KEPT: Bytes := [0x37, 0x37, 0x37, 0x30]
  const ZEROS: Bytes := [0x30, 0x30, 0x30, 0x30, 0x30, 0x30, 0x30]

  lemma NotEmpty()
    ensures RULES.patterns != []
  {
    EntriesKnown(ONES_ENTRY);
  }

  lemma WholeStep()
    ensures StepSegments(RULES, FRESH, WHOLE) == Cut(RULES.patterns, WHOLE, 0, 7)
  {
    hide Cut;
    hide Entries;
    NotEmpty();
    assert |WHOLE| == 14;
    assert FRESH.carryover + WHOLE == WHOLE;
    assert StopAt(RULES, WHOLE) == 7;
  }

  /** The token followed by 7 7 7. */
  lemma DirtyBuffer()
    ensures !PatternFree(RULES.patterns, TOKEN + WHOLE[4..7])
  {
    hide Entries;
    var out := TOKEN + WHOLE[4..7];
    assert WHOLE[4..7] == [0x37, 0x37, 0x37];
    assert out[11..] == SEVENS;
    assert OccursAt(SEVENS_ENTRY.bytes, out, 11);
    EntriesKnown(SEVENS_ENTRY);
  }

  /** In one chunk the buffer released is the token followed by 7 7 7, and the audit fires. */
  lemma OneChunkHalts()
    ensures RunToEnd(RULES, [WHOLE]).0.halted
  {
    hide Cut;
    hide StepSegments;
    hide PatternFree;
    hide Process;
    hide Flush;
    hide Entries;
    assert ONES <= WHOLE;
    SecretThenLiterals(WHOLE, 7);
    WholeStep();
    DirtyBuffer();
    RulesAreBuilt();
    HaltsExactly(RULES, FRESH, WHOLE);
    var st := Process(RULES, FRESH, WHOLE).0;
    assert [WHOLE][1..] == [];
    assert Run(RULES, st, []) == (st, []);
    assert Run(RULES, FRESH, [WHOLE]).0 == st;
    HaltedFlush(RULES, st);
  }

  lemma FirstChunk()
    ensures var st := Process(RULES, FRESH, FIRST).0; !st.halted && st.carryover == KEPT
  {
    hide Cut;
    hide CutEnd;
    hide FirstViolation;
    hide Entries;
    NotEmpty();
    assert [] + FIRST == FIRST && StopAt(RULES, FIRST) == 1 && ONES <= FIRST;
    SecretThenLiterals(FIRST, 1);
    assert TOKEN + [] == TOKEN && FIRST[4..] == KEPT;
    Clean(TOKEN);
  }

  lemma SecondChunk(st: Stream)
    requires !st.halted && st.carryover == KEPT
    ensures var st' := Process(RULES, st, SECOND).0; !st'.halted && st'.carryover == ZEROS
  {
    hide Cut;
    hide CutEnd;
    hide FirstViolation;
    hide Entries;
    NotEmpty();
    var combined := KEPT + SECOND;
    assert |combined| == 10 && StopAt(RULES, combined) == 3;
    assert combined == [0x37, 0x37, 0x37] + ZEROS;
    LiteralsOnly(combined, 0, 3);
    assert combined[0..3] == [0x37, 0x37, 0x37] && combined[3..] == ZEROS;
    Clean([0x37, 0x37, 0x37]);
  }

  lemma LastFlush(st: Stream)
    requires !st.halted && st.carryover == ZEROS
    ensures !Flush(RULES, st).0.halted
  {
    hide Cut;
    hide FirstViolation;
    hide Entries;
    NotEmpty();
    LiteralsOnly(ZEROS, 0, 7);
    assert ZEROS[0..7] == ZEROS;
    Clean(ZEROS);
  }

  /** In two chunks the same bytes are released, in buffers that are each clean. */
  lemma TwoChunksDoNotHalt()
    ensures !RunToEnd(RULES, [FIRST, SECOND]).0.halted
  {
    hide Process;
    hide Flush;
    FirstChunk();
    var st1 := Process(RULES, FRESH, FIRST).0;
    SecondChunk(st1);
    var st2 := Process(RULES, st1, SECOND).0;
    LastFlush(st2);
    assert [FIRST, SECOND][1..] == [SECOND] && [SECOND][1..] == [];
    assert Run(RULES, st2, []).0 == st2;
    assert Run(RULES, st1, [SECOND]).0 == st2;
    assert Run(RULES, FRESH, [FIRST, SECOND]).0 == st2;
  }

  lemma SameBytes()
    ensures Flatten([WHOLE]) == Flatten([FIRST, SECOND])
  {
    assert [FIRST, SECOND] == [FIRST] + [SECOND] && [FIRST] == [] + [FIRST] && [WHOLE] == [] + [WHOLE];
    var none: seq<Bytes> := [];
    FlattenAppend([FIRST], SECOND);
    FlattenAppend(none, FIRST);
    FlattenAppend(none, WHOLE);
  }

  /** A dictionary of two secrets as an engine builds it, one stream, and two ways of
      cutting it: one run is halted, the other is not. */
  lemma HaltingDependsOnChunking()
    ensures Encoded(SECRETS) && ValidRules(RULES)
    ensures RULES == Rules(Entries(SECRETS), Longest(KeepFirst(Candidates(SECRETS)), 0))
    ensures exists a, b :: Flatten(a) == Flatten(b) && RunToEnd(RULES, a).0.halted && !RunToEnd(RULES, b).0.halted
  {
    hide Run;
    hide RunToEnd;
    hide Entries;
    SecretsEncoded();
    RulesAreBuilt();
    OneChunkHalts();
    TwoChunksDoNotHalt();
    SameBytes();
    assert RunToEnd(RULES, [WHOLE]).0.halted && !RunToEnd(RULES, [FIRST, SECOND]).0.halted;
  }
}
