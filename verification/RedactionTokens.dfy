/** What stands in the output for a secret: the bytes of "[REDACTED:", the name of the
    first secret that has the variant, and "]". */
module RedactionTokens {
  import opened Octets
  import opened Patterns
  import opened GreedyRedaction
  import opened DictionaryEntries

  lemma SpellingDetermines(t: Bytes, u: Bytes, name: Bytes, other: Bytes)
    requires SpellsName(t, name) && SpellsName(u, other)
    ensures t == u <==> name == other
  {
    if t == u {
      assert name == t[10..10 + |name|] == u[10..10 + |other|] == other;
    }
    if name == other {
      assert t == t[..10] + t[10..10 + |name|] + [t[10 + |name|]];
      assert u == u[..10] + u[10..10 + |name|] + [u[10 + |name|]];
    }
  }

  /** The dictionary holds a byte string exactly when it is a variant of a secret of at
      least four characters. */
  lemma HeldExactly(secrets: seq<Secret>, w: Bytes)
    requires Encoded(secrets)
    ensures (exists p :: p in Entries(secrets) && p.bytes == w)
       <==> exists s :: s in secrets && s.valueLength >= 4 && w in s.variants
  {
    hide Entries;
    hide Token;
    EntriesAreRight(secrets);
    PatternForSound(Entries(secrets), w);
    PatternForSound(Candidates(secrets), w);
    if s :| s in secrets && s.valueLength >= 4 && w in s.variants {
      CandidatesComplete(secrets, PatternEntry(w, Token(s.name), s.name));
      assert EntryOf(s, PatternEntry(w, Token(s.name), s.name));
      assert PatternFor(Entries(secrets), w).Some?;
    }
    if p :| p in Entries(secrets) && p.bytes == w {
      var q := PatternFor(Candidates(secrets), w).value;
      CandidatesComplete(secrets, q);
    }
  }

  /** Every entry carries a token that spells the name of its secret in full. */
  lemma TokensSpellNames(secrets: seq<Secret>, p: PatternEntry)
    requires Encoded(secrets) && p in Entries(secrets)
    ensures SpellsName(p.token, p.secretName)
    ensures exists s :: s in secrets && s.valueLength >= 4 && p.bytes in s.variants && s.name == p.secretName
  {
    hide Token;
    hide LongestFirst;
    hide Candidates;
    KeepFirstDistinct(Candidates(secrets));
    SortDescending(KeepFirst(Candidates(secrets)));
    CandidatesComplete(secrets, p);
  }

  lemma AllTokensSpellNames(secrets: seq<Secret>)
    requires Encoded(secrets)
    ensures forall p :: p in Entries(secrets) ==> SpellsName(p.token, p.secretName)
  {
    hide Entries;
    hide SpellsName;
    forall p | p in Entries(secrets) ensures SpellsName(p.token, p.secretName) {
      TokensSpellNames(secrets, p);
    }
  }

  /** Secrets with different names stay apart in the output. */
  lemma TokensTellNamesApart(secrets: seq<Secret>, p: PatternEntry, q: PatternEntry)
    requires Encoded(secrets) && p in Entries(secrets) && q in Entries(secrets)
    ensures p.token == q.token <==> p.secretName == q.secretName
  {
    hide Entries;
    TokensSpellNames(secrets, p);
    TokensSpellNames(secrets, q);
    SpellingDetermines(p.token, q.token, p.secretName, q.secretName);
  }

  /** A stream that consists of a variant alone comes out as the ten bytes, the name of
      the first secret that has this variant, and the last byte. */
  lemma VariantAlone(secrets: seq<Secret>, i: nat, v: Bytes)
    requires Encoded(secrets) && i < |secrets|
    requires secrets[i].valueLength >= 4 && v in secrets[i].variants
    requires forall j :: 0 <= j < i && secrets[j].valueLength >= 4 ==> v !in secrets[j].variants
    ensures SpellsName(Greedy(Entries(secrets), v), secrets[i].name)
  {
    hide Entries;
    hide Token;
    var d := Entries(secrets);
    EntriesAreRight(secrets);
    FirstSecretWins(secrets, i, v);
    var q := PatternFor(d, v).value;
    PatternForSound(d, v);
    assert v[0..|v|] == v && v != [];
    assert Head(d, v, 0) == Replaced(q);
    assert Segments(d, v, 0) == [Replaced(q)] + Segments(d, v, |v|);
    assert Segments(d, v, |v|) == [];
    assert ShownAll([Replaced(q)]) == q.token + [];
  }
}
