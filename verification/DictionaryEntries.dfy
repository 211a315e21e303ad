/** From secrets to dictionary entries: encoded variants in order, later duplicates
    of the same bytes dropped, longest first. */
module DictionaryEntries {
  import opened Octets
  import opened Wrappers
  import opened Sequences
  import opened Patterns
  import opened OutputSafety

  /** A secret with the length of its value in characters and the UTF-8 bytes of its
      encoded variants, in the order in which they are generated. */
  datatype Secret = Secret(name: Bytes, valueLength: nat, variants: seq<Bytes>)

  const MIN_VALUE_LENGTH: nat := 4

  const TOKEN_PREFIX: Bytes := [0x5B, 0x52, 0x45, 0x44, 0x41, 0x43, 0x54, 0x45, 0x44, 0x3A] // "[REDACTED:"

  /** The ten bytes of "[REDACTED:", the name, and "]". */
  ghost predicate SpellsName(token: Bytes, name: Bytes) {
    && |token| == |name| + 11
    && token[..10] == [0x5B, 0x52, 0x45, 0x44, 0x41, 0x43, 0x54, 0x45, 0x44, 0x3A]
    && token[10..10 + |name|] == name
    && token[10 + |name|] == 0x5D
  }

  function Token(name: Bytes): (t: Bytes)
    ensures Bracketed(t) && SpellsName(t, name)
  {
    TOKEN_PREFIX + name + [CLOSE]
  }

  /** Encoders give non-empty output on the values they are applied to. */
  ghost predicate Encoded(secrets: seq<Secret>) {
    forall s :: s in secrets && s.valueLength >= MIN_VALUE_LENGTH ==> [] !in s.variants
  }

  function Variants(s: Secret, n: nat): Dictionary
    requires n <= |s.variants|
  {
    if n == 0 then [] else Variants(s, n - 1) + [PatternEntry(s.variants[n - 1], Token(s.name), s.name)]
  }

  /** Every variant of every secret that is not trivially short, in order. */
  function Candidates(secrets: seq<Secret>): Dictionary {
    if secrets == [] then []
    else
      var s := secrets[|secrets| - 1];
      Candidates(secrets[..|secrets| - 1])
      + if s.valueLength < MIN_VALUE_LENGTH then [] else Variants(s, |s.variants|)
  }

  function KeepFirst(d: Dictionary): Dictionary {
    if d == [] then []
    else
      var kept := KeepFirst(d[..|d| - 1]);
      var last := d[|d| - 1];
      if PatternFor(kept, last.bytes).Some? then kept else kept + [last]
  }

  /** Put `p` after the entries that are at least as long. */
  function InsertByLength(d: Dictionary, p: PatternEntry): Dictionary {
    if d == [] then [p]
    else if |d[0].bytes| >= |p.bytes| then [d[0]] + InsertByLength(d[1..], p)
    else [p] + d
  }

  /** The stable sort, longest first. */
  function LongestFirst(d: Dictionary): Dictionary {
    if d == [] then [] else InsertByLength(LongestFirst(d[..|d| - 1]), d[|d| - 1])
  }

  function Entries(secrets: seq<Secret>): Dictionary {
    LongestFirst(KeepFirst(Candidates(secrets)))
  }

  /** Dropping duplicates keeps, for all bytes, the entry that came first. */
  lemma {:induction false} KeepFirstKeepsFirst(d: Dictionary, w: Bytes)
    ensures PatternFor(KeepFirst(d), w) == PatternFor(d, w)
  {
    if d == [] {
    } else {
      var init, last := d[..|d| - 1], d[|d| - 1];
      assert d == init + [last];
      KeepFirstKeepsFirst(init, w);
      KeepFirstKeepsFirst(init, last.bytes);
      PatternForAppend(init, last, w);
      PatternForAppend(KeepFirst(init), last, w);
    }
  }

  lemma {:induction false} KeepFirstDistinct(d: Dictionary)
    ensures DistinctBytes(KeepFirst(d))
    ensures forall p :: p in KeepFirst(d) ==> p in d
  {
    if d == [] {
    } else {
      KeepFirstDistinct(d[..|d| - 1]);
      PatternForSound(KeepFirst(d[..|d| - 1]), d[|d| - 1].bytes);
    }
  }

  lemma {:induction false} InsertKeeps(d: Dictionary, p: PatternEntry)
    ensures multiset(InsertByLength(d, p)) == multiset(d) + multiset{p}
  {
    if d == [] {
    } else {
      assert d == [d[0]] + d[1..];
      InsertKeeps(d[1..], p);
    }
  }

  lemma {:induction false} SortKeeps(d: Dictionary)
    ensures multiset(LongestFirst(d)) == multiset(d)
  {
    if d == [] {
    } else {
      assert d == d[..|d| - 1] + [d[|d| - 1]];
      SortKeeps(d[..|d| - 1]);
      InsertKeeps(LongestFirst(d[..|d| - 1]), d[|d| - 1]);
    }
  }

  ghost predicate Descending(d: Dictionary) {
    forall i, j :: 0 <= i < j < |d| ==> |d[i].bytes| >= |d[j].bytes|
  }

  lemma {:induction false} InsertDescending(d: Dictionary, p: PatternEntry)
    requires Descending(d)
    ensures Descending(InsertByLength(d, p))
    ensures forall q :: q in InsertByLength(d, p) <==> q in d || q == p
  {
    if d == [] {
    } else {
      InsertDescending(d[1..], p);
      assert d == [d[0]] + d[1..];
      var rest := InsertByLength(d[1..], p);
      forall j | 0 <= j < |rest| && |d[0].bytes| >= |p.bytes| ensures |rest[j].bytes| <= |d[0].bytes| {
        assert rest[j] in rest;
      }
    }
  }

  lemma {:induction false} SortDescending(d: Dictionary)
    ensures Descending(LongestFirst(d))
    ensures forall q :: q in LongestFirst(d) <==> q in d
  {
    if d == [] {
    } else {
      assert d == d[..|d| - 1] + [d[|d| - 1]];
      SortDescending(d[..|d| - 1]);
      InsertDescending(LongestFirst(d[..|d| - 1]), d[|d| - 1]);
    }
  }

  lemma {:induction false} InsertDistinct(d: Dictionary, p: PatternEntry)
    requires DistinctBytes(d) && forall q :: q in d ==> q.bytes != p.bytes
    ensures DistinctBytes(InsertByLength(d, p))
    ensures forall q :: q in InsertByLength(d, p) <==> q in d || q == p
  {
    if d == [] {
    } else {
      assert d == [d[0]] + d[1..];
      assert d[0] in d;
      InsertDistinct(d[1..], p);
      var rest := InsertByLength(d[1..], p);
      forall q | q in rest ensures q.bytes != d[0].bytes {
        if q in d[1..] {
          var j :| 0 <= j < |d| - 1 && d[1..][j] == q;
          assert d[0].bytes != d[j + 1].bytes;
        }
      }
      forall j | 0 <= j < |rest| ensures rest[j].bytes != d[0].bytes {
        assert rest[j] in rest;
      }
    }
  }

  lemma {:induction false} SortDistinct(d: Dictionary)
    requires DistinctBytes(d)
    ensures DistinctBytes(LongestFirst(d))
    ensures forall q :: q in LongestFirst(d) <==> q in d
  {
    if d == [] {
    } else {
      var init, last := d[..|d| - 1], d[|d| - 1];
      assert d == init + [last];
      SortDistinct(init);
      InsertDistinct(LongestFirst(init), last);
    }
  }

  lemma {:induction false} VariantsShape(s: Secret, n: nat)
    requires n <= |s.variants|
    ensures forall p :: p in Variants(s, n) ==> p.bytes in s.variants && p.token == Token(s.name)
  {
    if n == 0 {
    } else {
      VariantsShape(s, n - 1);
    }
  }

  lemma {:induction false} CandidatesShape(secrets: seq<Secret>)
    requires Encoded(secrets)
    ensures forall p :: p in Candidates(secrets) ==> p.bytes != [] && Bracketed(p.token)
  {
    if secrets == [] {
    } else {
      var s := secrets[|secrets| - 1];
      assert s in secrets;
      CandidatesShape(secrets[..|secrets| - 1]);
      VariantsShape(s, |s.variants|);
    }
  }

  /** What the compiled dictionary is worth: it is well formed, longest first, its
      tokens are bracketed, and duplicates keep the token of the first secret. */
  lemma EntriesAreRight(secrets: seq<Secret>)
    requires Encoded(secrets)
    ensures var d := Entries(secrets);
            && WellFormed(d) && Descending(d) && TokensBracketed(d) && TokensNonEmpty(d)
            && forall w :: PatternFor(d, w) == PatternFor(Candidates(secrets), w)
  {
    var c := Candidates(secrets);
    var kept := KeepFirst(c);
    var d := Entries(secrets);
    CandidatesShape(secrets);
    KeepFirstDistinct(c);
    SortDistinct(kept);
    SortDescending(kept);
    forall w ensures PatternFor(d, w) == PatternFor(c, w) {
      KeepFirstKeepsFirst(c, w);
      PatternForSound(d, w);
      PatternForSound(kept, w);
      if PatternFor(kept, w).Some? {
        PatternForUnique(d, PatternFor(kept, w).value);
      }
    }
  }

  /** The length of the longest entry, at least `least`. */
  function Longest(d: Dictionary, least: nat): (n: nat)
    ensures n >= least
  {
    if d == [] then least
    else
      var n := Longest(d[..|d| - 1], least);
      if |d[|d| - 1].bytes| > n then |d[|d| - 1].bytes| else n
  }

  lemma {:induction false} LongestBounds(d: Dictionary, least: nat)
    ensures Bounded(d, Longest(d, least))
    ensures Longest(d, least) == least || exists p :: p in d && |p.bytes| == Longest(d, least)
  {
    if d == [] {
    } else {
      var init, last := d[..|d| - 1], d[|d| - 1];
      assert d == init + [last];
      LongestBounds(init, least);
    }
  }

  // ---- Which secrets the entries stand for --------------------------------------

  /** `p` is the entry of a variant of `s`, and `s` is long enough to be kept. */
  ghost predicate EntryOf(s: Secret, p: PatternEntry) {
    s.valueLength >= MIN_VALUE_LENGTH && p.bytes in s.variants && p == PatternEntry(p.bytes, Token(s.name), s.name)
  }

  lemma {:induction false} VariantsComplete(s: Secret, n: nat, p: PatternEntry)
    requires n <= |s.variants|
    ensures p in Variants(s, n) <==> p.bytes in s.variants[..n] && p == PatternEntry(p.bytes, Token(s.name), s.name)
  {
    if n == 0 {
    } else {
      VariantsComplete(s, n - 1, p);
      assert s.variants[..n] == s.variants[..n - 1] + [s.variants[n - 1]];
    }
  }

  /** The candidates are the entries of all variants of all secrets that are long enough. */
  lemma {:induction false} CandidatesComplete(secrets: seq<Secret>, p: PatternEntry)
    ensures p in Candidates(secrets) <==> exists s :: s in secrets && EntryOf(s, p)
  {
    if secrets != [] {
      var init, s := secrets[..|secrets| - 1], secrets[|secrets| - 1];
      CandidatesComplete(init, p);
      VariantsComplete(s, |s.variants|, p);
      assert s.variants[..|s.variants|] == s.variants;
      assert secrets == init + [s];
      assert p in Variants(s, |s.variants|) && s.valueLength >= MIN_VALUE_LENGTH <==> EntryOf(s, p);
      assert forall t :: t in secrets <==> t in init || t == s;
    } else {
      assert !exists s :: s in secrets && EntryOf(s, p);
    }
  }

  lemma {:induction false} PatternForConcat(a: Dictionary, b: Dictionary, w: Bytes)
    ensures PatternFor(a + b, w) == if PatternFor(a, w).Some? then PatternFor(a, w) else PatternFor(b, w)
  {
    if a == [] {
      assert a + b == b;
    } else {
      assert (a + b)[0] == a[0] && (a + b)[1..] == a[1..] + b;
      PatternForConcat(a[1..], b, w);
    }
  }

  lemma {:induction false} CandidatesConcat(a: seq<Secret>, b: seq<Secret>)
    ensures Candidates(a + b) == Candidates(a) + Candidates(b)
    decreases |b|
  {
    if b == [] {
      assert a + b == a;
    } else {
      var init, s := b[..|b| - 1], b[|b| - 1];
      assert (a + b)[..|a + b| - 1] == a + init && (a + b)[|a + b| - 1] == s;
      CandidatesConcat(a, init);
      ConcatAssociative(Candidates(a), Candidates(init),
                        if s.valueLength < MIN_VALUE_LENGTH then [] else Variants(s, |s.variants|));
    }
  }

  /** When several secrets share the bytes `w`, the token is that of the first of them. */
  lemma FirstSecretWins(secrets: seq<Secret>, i: nat, w: Bytes)
    requires Encoded(secrets) && i < |secrets|
    requires secrets[i].valueLength >= MIN_VALUE_LENGTH && w in secrets[i].variants
    requires forall j :: 0 <= j < i && secrets[j].valueLength >= MIN_VALUE_LENGTH ==> w !in secrets[j].variants
    ensures PatternFor(Entries(secrets), w) == Some(PatternEntry(w, Token(secrets[i].name), secrets[i].name))
  {
    hide Entries;
    hide Candidates;
    hide Variants;
    EntriesAreRight(secrets);
    var before, after := secrets[..i], secrets[i..];
    assert secrets == before + after && after == [secrets[i]] + secrets[i + 1..];
    CandidatesConcat(before, after);
    CandidatesConcat([secrets[i]], secrets[i + 1..]);
    var none: seq<Secret> := [];
    CandidatesSnoc(none, secrets[i]);
    NoCandidates();
    assert none + [secrets[i]] == [secrets[i]];
    PatternForConcat(Candidates(before), Candidates(after), w);
    PatternForConcat(Candidates([secrets[i]]), Candidates(secrets[i + 1..]), w);
    PatternForSound(Candidates(before), w);
    if PatternFor(Candidates(before), w).Some? {
      CandidatesComplete(before, PatternFor(Candidates(before), w).value);
    }
    var own := Candidates([secrets[i]]);
    VariantsComplete(secrets[i], |secrets[i].variants|, PatternEntry(w, Token(secrets[i].name), secrets[i].name));
    assert secrets[i].variants[..|secrets[i].variants|] == secrets[i].variants;
    PatternForSound(own, w);
    assert PatternFor(own, w).Some?;
    VariantsComplete(secrets[i], |secrets[i].variants|, PatternFor(own, w).value);
  }

  lemma NoCandidates()
    ensures Candidates([]) == []
  {
  }

  lemma CandidatesSnoc(init: seq<Secret>, s: Secret)
    ensures Candidates(init + [s])
         == Candidates(init) + if s.valueLength < MIN_VALUE_LENGTH then [] else Variants(s, |s.variants|)
  {
    assert (init + [s])[..|init|] == init;
  }

  // ---- One step of gathering --------------------------------------------------

  /** `seen` is the set of byte strings that already have an entry. */
  ghost predicate Seen(entries: Dictionary, seen: set<Bytes>) {
    forall w :: w in seen <==> PatternFor(entries, w).Some?
  }

  lemma SeenAppend(entries: Dictionary, seen: set<Bytes>, p: PatternEntry)
    requires Seen(entries, seen)
    ensures Seen(entries + [p], seen + {p.bytes})
  {
    forall w ensures w in seen + {p.bytes} <==> PatternFor(entries + [p], w).Some? {
      PatternForAppend(entries, p, w);
    }
  }

  lemma KeepFirstAppend(d: Dictionary, p: PatternEntry)
    ensures KeepFirst(d + [p]) == if PatternFor(KeepFirst(d), p.bytes).Some? then KeepFirst(d) else KeepFirst(d) + [p]
  {
    assert (d + [p])[..|d|] == d;
  }

  lemma LongestAppend(d: Dictionary, p: PatternEntry, least: nat)
    ensures Longest(d + [p], least) == if |p.bytes| > Longest(d, least) then |p.bytes| else Longest(d, least)
  {
    assert (d + [p])[..|d|] == d;
  }

  lemma CandidatesAppend(secrets: seq<Secret>, n: nat)
    requires n < |secrets|
    ensures Candidates(secrets[..n + 1]) == Candidates(secrets[..n])
              + if secrets[n].valueLength < MIN_VALUE_LENGTH then [] else Variants(secrets[n], |secrets[n].variants|)
  {
    assert secrets[..n + 1][..n] == secrets[..n];
  }
}
