/** The mathematics of the Aho-Corasick automaton, on paths: which suffix of the
    input a state stands for, and which patterns end there. */
module AutomatonTheory {
  import opened Octets
  import opened Wrappers
  import opened Patterns
  import opened ConfinementAudit

  /** The nodes of the trie are the prefixes of patterns, and the root. */
  ghost predicate InTrie(d: Dictionary, w: Bytes) {
    w == [] || exists p :: p in d && w <= p.bytes
  }

  ghost predicate IsSuffix(u: Bytes, w: Bytes) {
    |u| <= |w| && u == w[|w| - |u|..]
  }

  /** The longest suffix of `w` that is a node of the trie. */
  ghost function LongestSuffix(d: Dictionary, w: Bytes): (u: Bytes)
    ensures |u| <= |w|
    decreases |w|
  {
    if InTrie(d, w) then w else LongestSuffix(d, w[1..])
  }

  /** Where the failure link of node `w` points. */
  ghost function Fail(d: Dictionary, w: Bytes): (u: Bytes)
    requires w != []
    ensures |u| < |w|
  {
    LongestSuffix(d, w[1..])
  }

  lemma {:induction false} LongestSuffixSound(d: Dictionary, w: Bytes)
    ensures InTrie(d, LongestSuffix(d, w)) && IsSuffix(LongestSuffix(d, w), w)
    decreases |w|
  {
    if InTrie(d, w) {
    } else {
      LongestSuffixSound(d, w[1..]);
      var u := LongestSuffix(d, w[1..]);
      assert w[1..][|w| - 1 - |u|..] == w[|w| - |u|..];
    }
  }

  lemma {:induction false} LongestSuffixIsLongest(d: Dictionary, w: Bytes, u: Bytes)
    requires InTrie(d, u) && IsSuffix(u, w)
    ensures |u| <= |LongestSuffix(d, w)|
    decreases |w|
  {
    if InTrie(d, w) {
    } else {
      assert u != w;
      assert w[1..][|w| - 1 - |u|..] == w[|w| - |u|..];
      LongestSuffixIsLongest(d, w[1..], u);
    }
  }

  lemma InTrieIsPrefixClosed(d: Dictionary, w: Bytes, b: byte)
    requires InTrie(d, w + [b])
    ensures InTrie(d, w)
  {
    var p :| p in d && w + [b] <= p.bytes;
    assert w <= w + [b];
  }

  /** Reading one more byte: it is enough to remember the longest suffix so far. */
  lemma {:induction false} StepLaw(d: Dictionary, w: Bytes, b: byte)
    ensures LongestSuffix(d, w + [b]) == LongestSuffix(d, LongestSuffix(d, w) + [b])
    decreases |w|
  {
    if InTrie(d, w) {
    } else {
      if InTrie(d, w + [b]) {
        InTrieIsPrefixClosed(d, w, b);
      }
      assert (w + [b])[1..] == w[1..] + [b];
      StepLaw(d, w[1..], b);
    }
  }

  /** Following a failure link when the state has no transition on `b`. */
  lemma FailStep(d: Dictionary, x: Bytes, b: byte)
    requires x != [] && !InTrie(d, x + [b])
    ensures LongestSuffix(d, x + [b]) == LongestSuffix(d, Fail(d, x) + [b])
  {
    assert (x + [b])[1..] == x[1..] + [b];
    StepLaw(d, x[1..], b);
  }

  /** The failure link of a child is found from the failure link of its parent. */
  lemma ChildFail(d: Dictionary, x: Bytes, b: byte)
    requires x != []
    ensures Fail(d, x + [b]) == LongestSuffix(d, Fail(d, x) + [b])
  {
    assert (x + [b])[1..] == x[1..] + [b];
    StepLaw(d, x[1..], b);
  }

  lemma PatternsAreNodes(d: Dictionary, w: Bytes)
    requires PatternFor(d, w).Some?
    ensures InTrie(d, w)
  {
    PatternForSound(d, w);
  }

  lemma {:induction false} LongestEndingReadsOnly(d: Dictionary, s: Bytes, i: nat, end: nat, t: Bytes, j: nat)
    requires i <= end <= |s| && j + (end - i) <= |t| && s[i..end] == t[j..j + (end - i)]
    ensures LongestEnding(d, s, i, end) == LongestEnding(d, t, j, j + (end - i))
    decreases end - i
  {
    if i == end {
    } else {
      assert s[i + 1..end] == s[i..end][1..] == t[j + 1..j + (end - i)];
      LongestEndingReadsOnly(d, s, i + 1, end, t, j + 1);
    }
  }

  /** Suffixes that are not nodes are not patterns, so the search may start at the node. */
  lemma {:induction false} LongestEndingSkips(d: Dictionary, s: Bytes, i: nat, k: nat, end: nat)
    requires i <= k <= end <= |s|
    requires forall j :: i <= j < k ==> PatternFor(d, s[j..end]).None?
    ensures LongestEnding(d, s, i, end) == LongestEnding(d, s, k, end)
    decreases k - i
  {
    if i == k {
    } else {
      LongestEndingSkips(d, s, i + 1, k, end);
    }
  }

  /** No pattern that ends at `end` is longer than the state reached there. */
  lemma NothingLongerThanState(d: Dictionary, s: Bytes, end: nat, j: nat)
    requires end <= |s| && j < end - |LongestSuffix(d, s[..end])|
    ensures PatternFor(d, s[j..end]).None?
  {
    if PatternFor(d, s[j..end]).Some? {
      PatternsAreNodes(d, s[j..end]);
      assert s[j..end] == s[..end][j..];
      LongestSuffixIsLongest(d, s[..end], s[j..end]);
    }
  }

  /** The patterns that end at `end` can be read off the state reached there. */
  lemma EndingsOfState(d: Dictionary, s: Bytes, end: nat)
    requires end <= |s|
    ensures var x := LongestSuffix(d, s[..end]);
            LongestEnding(d, s, 0, end) == LongestEnding(d, x, 0, |x|)
  {
    var x := LongestSuffix(d, s[..end]);
    LongestSuffixSound(d, s[..end]);
    var k := end - |x|;
    forall j | 0 <= j < k ensures PatternFor(d, s[j..end]).None? {
      NothingLongerThanState(d, s, end, j);
    }
    LongestEndingSkips(d, s, 0, k, end);
    assert s[k..end] == x == x[0..|x|];
    LongestEndingReadsOnly(d, s, k, end, x, 0);
  }

  /** The node that the dictionary-suffix link of `x` points to, if any: the longest
      proper suffix of `x` that is a whole pattern. */
  ghost function DictSuffix(d: Dictionary, x: Bytes): Option<Bytes>
    requires x != []
  {
    match LongestEnding(d, x, 1, |x|)
    case Some(p) => Some(p.bytes)
    case None => None
  }

  /** The link is found from the failure link: its target if that ends a pattern,
      otherwise wherever the target's own link points. */
  lemma DictSuffixLaw(d: Dictionary, x: Bytes)
    requires x != []
    ensures var f := Fail(d, x);
            DictSuffix(d, x) == if PatternFor(d, f).Some? && f != [] then Some(f)
                                else if f == [] then None
                                else DictSuffix(d, f)
  {
    var f := Fail(d, x);
    var w := x[1..];
    assert w[..|w|] == w && x[1..|x|] == w[0..|w|];
    LongestEndingReadsOnly(d, x, 1, |x|, w, 0);
    EndingsOfState(d, w, |w|);
    assert f[0..|f|] == f;
    PatternForSound(d, f);
  }

  lemma DictSuffixIsNode(d: Dictionary, x: Bytes)
    requires x != [] && DictSuffix(d, x).Some?
    ensures var y := DictSuffix(d, x).value;
            InTrie(d, y) && |y| < |x| && PatternFor(d, y).Some? && y == x[|x| - |y|..]
  {
    var p := LongestEnding(d, x, 1, |x|).value;
    LongestEndingIsSound(d, x, 1, |x|);
    PatternForSound(d, p.bytes);
    PatternsAreNodes(d, p.bytes);
  }

  /** The invariant of the failure link: the longest proper suffix of the node's path
      that is itself a prefix of some pattern. */
  lemma FailIsLongestProperSuffix(d: Dictionary, w: Bytes, u: Bytes)
    requires w != [] && InTrie(d, u) && IsSuffix(u, w) && u != w
    ensures InTrie(d, Fail(d, w)) && IsSuffix(Fail(d, w), w) && Fail(d, w) != w
    ensures |u| <= |Fail(d, w)|
  {
    var t := w[1..];
    assert t[|t| - |u|..] == w[|w| - |u|..];
    LongestSuffixIsLongest(d, t, u);
    LongestSuffixSound(d, t);
    assert t[|t| - |Fail(d, w)|..] == w[|w| - |Fail(d, w)|..];
  }

  // ---- The chain of patterns at a state ----------------------------------------

  /** The patterns met by looking at a node's output and following dictionary-suffix links. */
  ghost function ChainOf(d: Dictionary, x: Bytes): seq<PatternEntry>
    decreases |x|
  {
    if x == [] then []
    else
      var own := match PatternFor(d, x) case Some(p) => [p] case None => [];
      match DictSuffix(d, x)
      case None => own
      case Some(y) => if |y| < |x| then own + ChainOf(d, y) else own
  }

  ghost predicate EndsWith(x: Bytes, p: PatternEntry) {
    p.bytes != [] && IsSuffix(p.bytes, x)
  }

  lemma EndsWithTransitive(x: Bytes, y: Bytes, p: PatternEntry)
    requires IsSuffix(y, x) && EndsWith(y, p)
    ensures EndsWith(x, p)
  {
    assert y[|y| - |p.bytes|..] == x[|x| - |p.bytes|..];
  }

  /** Anything that ends `x` and is shorter than a suffix `y` of `x` also ends `y`. */
  lemma EndsWithShorter(x: Bytes, y: Bytes, p: PatternEntry)
    requires IsSuffix(y, x) && EndsWith(x, p) && |p.bytes| <= |y|
    ensures EndsWith(y, p)
  {
    assert y[|y| - |p.bytes|..] == x[|x| - |p.bytes|..];
  }

  /** The chain visits exactly the patterns that end the path of the node, longest
      first and so each of them once. */
  lemma {:induction false} ChainIsExact(d: Dictionary, x: Bytes)
    requires WellFormed(d)
    ensures forall p :: p in ChainOf(d, x) <==> p in d && EndsWith(x, p)
    ensures forall i, j :: 0 <= i < j < |ChainOf(d, x)| ==> |ChainOf(d, x)[i].bytes| > |ChainOf(d, x)[j].bytes|
    decreases |x|
  {
    if x == [] {
    } else {
      PatternForSound(d, x);
      if DictSuffix(d, x).Some? {
        var y := DictSuffix(d, x).value;
        DictSuffixIsNode(d, x);
        ChainIsExact(d, y);
      }
      forall p ensures p in ChainOf(d, x) <==> p in d && EndsWith(x, p) {
        ChainMember(d, x, p);
      }
      ChainDescends(d, x);
    }
  }

  lemma ChainMember(d: Dictionary, x: Bytes, p: PatternEntry)
    requires WellFormed(d) && x != []
    requires DictSuffix(d, x).Some? ==>
               forall q :: q in ChainOf(d, DictSuffix(d, x).value) <==> q in d && EndsWith(DictSuffix(d, x).value, q)
    ensures p in ChainOf(d, x) <==> p in d && EndsWith(x, p)
  {
    PatternForSound(d, x);
    assert x[0..] == x;
    if DictSuffix(d, x).Some? {
      DictSuffixIsNode(d, x);
      var y := DictSuffix(d, x).value;
      if p in d && EndsWith(y, p) {
        EndsWithTransitive(x, y, p);
      }
    }
    if p in d && EndsWith(x, p) {
      if p.bytes == x {
        PatternForUnique(d, p);
      } else {
        assert OccursAt(p.bytes, x, |x| - |p.bytes|);
        LongestEndingIsComplete(d, x, 1, |x|, p);
        EndsWithShorter(x, DictSuffix(d, x).value, p);
      }
    }
  }

  lemma ChainDescends(d: Dictionary, x: Bytes)
    requires WellFormed(d) && x != []
    requires DictSuffix(d, x).Some? ==>
               var c := ChainOf(d, DictSuffix(d, x).value);
               && (forall q :: q in c <==> q in d && EndsWith(DictSuffix(d, x).value, q))
               && (forall i, j :: 0 <= i < j < |c| ==> |c[i].bytes| > |c[j].bytes|)
    ensures forall i, j :: 0 <= i < j < |ChainOf(d, x)| ==> |ChainOf(d, x)[i].bytes| > |ChainOf(d, x)[j].bytes|
  {
    PatternForSound(d, x);
    if DictSuffix(d, x).Some? {
      DictSuffixIsNode(d, x);
      var c := ChainOf(d, DictSuffix(d, x).value);
      forall j | 0 <= j < |c| ensures |c[j].bytes| < |x| {
        assert c[j] in c;
      }
    }
  }

  /** Read at position `end` of a text, the chain of the state reached there holds
      exactly the patterns that end there. */
  lemma ChainAtState(d: Dictionary, s: Bytes, end: nat, p: PatternEntry)
    requires WellFormed(d) && end <= |s|
    ensures p in ChainOf(d, LongestSuffix(d, s[..end])) <==>
              p in d && |p.bytes| <= end && OccursAt(p.bytes, s, end - |p.bytes|)
  {
    hide ChainOf;
    var x := LongestSuffix(d, s[..end]);
    ChainIsExact(d, x);
    LongestSuffixSound(d, s[..end]);
    if p in d && EndsWith(x, p) {
      EndsWithTransitive(s[..end], x, p);
      assert s[..end][end - |p.bytes|..] <= s[end - |p.bytes|..];
    }
    if p in d && |p.bytes| <= end && OccursAt(p.bytes, s, end - |p.bytes|) {
      assert p.bytes == s[..end][end - |p.bytes|..];
      assert InTrie(d, p.bytes);
      LongestSuffixIsLongest(d, s[..end], p.bytes);
      EndsWithShorter(s[..end], x, p);
    }
  }
}
