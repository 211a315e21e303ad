/** The redaction dictionary: byte patterns, the tokens that replace them, and
    the two lookups every later definition rests on: the pattern with exactly
    the given bytes, and the longest pattern that starts a byte string. */
module Patterns {
  import opened Octets
  import opened Wrappers

  datatype PatternEntry = PatternEntry(bytes: Bytes, token: Bytes, secretName: Bytes)

  type Dictionary = seq<PatternEntry>

  /** No two entries have the same bytes. */
  ghost predicate DistinctBytes(d: Dictionary) {
    forall i, j :: 0 <= i < j < |d| ==> d[i].bytes != d[j].bytes
  }

  /** What `buildDictionary` guarantees: no empty pattern and no two entries
      with the same bytes. */
  ghost predicate WellFormed(d: Dictionary) {
    (forall p :: p in d ==> p.bytes != []) && DistinctBytes(d)
  }

  /** `bound` is an upper bound on pattern lengths, not always the exact maximum. */
  ghost predicate Bounded(d: Dictionary, bound: nat) {
    forall p :: p in d ==> |p.bytes| <= bound
  }

  ghost predicate TokensNonEmpty(d: Dictionary) {
    forall p :: p in d ==> p.token != []
  }

  ghost predicate IsPrefix(u: Bytes, w: Bytes) {
    u <= w
  }

  /** `w` occurs in `s` at offset `i`. */
  ghost predicate OccursAt(w: Bytes, s: Bytes, i: nat) {
    i <= |s| && w <= s[i..]
  }

  /** No pattern occurs anywhere in `s`. */
  ghost predicate PatternFree(d: Dictionary, s: Bytes) {
    forall p, i: nat :: p in d ==> !OccursAt(p.bytes, s, i)
  }

  /** The first entry whose bytes are exactly `w`. */
  function PatternFor(d: Dictionary, w: Bytes): Option<PatternEntry> {
    if d == [] then None
    else if d[0].bytes == w then Some(d[0])
    else PatternFor(d[1..], w)
  }

  lemma {:induction false} PatternForSound(d: Dictionary, w: Bytes)
    ensures match PatternFor(d, w)
            case Some(p) => p in d && p.bytes == w
            case None => forall p :: p in d ==> p.bytes != w
  {
    if d == [] {
    } else {
      PatternForSound(d[1..], w);
      assert d == [d[0]] + d[1..];
    }
  }

  lemma {:induction false} PatternForAppend(d: Dictionary, p: PatternEntry, w: Bytes)
    ensures PatternFor(d + [p], w) ==
      if PatternFor(d, w).Some? then PatternFor(d, w) else if p.bytes == w then Some(p) else None
  {
    if d == [] {
    } else {
      assert (d + [p])[0] == d[0] && (d + [p])[1..] == d[1..] + [p];
      PatternForAppend(d[1..], p, w);
    }
  }

  lemma PatternForUnique(d: Dictionary, p: PatternEntry)
    requires WellFormed(d) && p in d
    ensures PatternFor(d, p.bytes) == Some(p)
  {
    PatternForSound(d, p.bytes);
    var q := PatternFor(d, p.bytes).value;
    var i :| 0 <= i < |d| && d[i] == p;
    var j :| 0 <= j < |d| && d[j] == q;
    assert i == j;
  }

  /** The longest pattern that occurs in `s` at `i` and ends by `end`. */
  function LongestAt(d: Dictionary, s: Bytes, i: nat, end: nat): (r: Option<PatternEntry>)
    requires i <= end <= |s|
    ensures r.Some? ==> 0 < |r.value.bytes| <= end - i
    decreases end
  {
    if i == end then None
    else
      PatternForSound(d, s[i..end]);
      var p := PatternFor(d, s[i..end]);
      if p.Some? then p else LongestAt(d, s, i, end - 1)
  }

  lemma {:induction false} LongestAtSound(d: Dictionary, s: Bytes, i: nat, end: nat)
    requires i <= end <= |s| && LongestAt(d, s, i, end).Some?
    ensures var p := LongestAt(d, s, i, end).value;
            p in d && i + |p.bytes| <= end && p.bytes == s[i..i + |p.bytes|]
    decreases end
  {
    PatternForSound(d, s[i..end]);
    if PatternFor(d, s[i..end]).Some? {
    } else {
      LongestAtSound(d, s, i, end - 1);
    }
  }

  /** The recursion finds what its name says: no pattern that occurs there is
      longer, and something is found whenever some pattern occurs there. */
  lemma {:induction false} LongestAtIsLongest(d: Dictionary, s: Bytes, i: nat, end: nat, q: PatternEntry)
    requires i <= end <= |s|
    requires q in d && q.bytes != [] && i + |q.bytes| <= end && OccursAt(q.bytes, s, i)
    ensures LongestAt(d, s, i, end).Some?
    ensures |q.bytes| <= |LongestAt(d, s, i, end).value.bytes|
    decreases end
  {
    PatternForSound(d, s[i..end]);
    if PatternFor(d, s[i..end]).Some? {
    } else {
      assert q.bytes == s[i..i + |q.bytes|];
      LongestAtIsLongest(d, s, i, end - 1, q);
    }
  }

  /** Bytes further away than the longest pattern cannot change the answer. */
  lemma {:induction false} LongestAtIsLocal(d: Dictionary, bound: nat, s: Bytes, i: nat, near: nat, far: nat)
    requires Bounded(d, bound) && i + bound <= near <= far <= |s|
    ensures LongestAt(d, s, i, far) == LongestAt(d, s, i, near)
    decreases far
  {
    if near == far {
    } else {
      PatternForSound(d, s[i..far]);
      LongestAtIsLocal(d, bound, s, i, near, far - 1);
    }
  }

  /** The answer depends on the bytes between `i` and `end` only. */
  lemma {:induction false} LongestAtReadsOnly(d: Dictionary, s: Bytes, i: nat, end: nat, t: Bytes, j: nat)
    requires i <= end <= |s| && j + (end - i) <= |t| && s[i..end] == t[j..j + (end - i)]
    ensures LongestAt(d, s, i, end) == LongestAt(d, t, j, j + (end - i))
    decreases end
  {
    if i == end {
    } else {
      assert s[i..end - 1] == s[i..end][..end - 1 - i] == t[j..j + (end - 1 - i)];
      LongestAtReadsOnly(d, s, i, end - 1, t, j);
    }
  }
}
