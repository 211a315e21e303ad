/** The nodes of the automaton, and the first phase of its construction: the trie.
    A ghost map from paths to nodes says which node stands for which prefix. */
module AhoTrie {
  import opened Octets
  import opened Wrappers
  import opened Patterns
  import opened AutomatonTheory

  class AhoNode {
    var children: map<byte, AhoNode>
    var fail: AhoNode
    var output: Option<PatternEntry>
    var dictSuffix: AhoNode?
    const depth: nat
    ghost const path: Bytes

    constructor Root()
      ensures path == [] && depth == 0
      ensures children == map[] && fail == this && output == None && dictSuffix == null
    {
      children, fail, output, dictSuffix := map[], this, None, null;
      depth, path := 0, [];
    }

    constructor Child(depth: nat, failDefault: AhoNode, ghost path: Bytes)
      ensures this.path == path && this.depth == depth
      ensures children == map[] && fail == failDefault && output == None && dictSuffix == null
    {
      children, fail, output, dictSuffix := map[], failDefault, None, null;
      this.depth, this.path := depth, path;
    }
  }

  type Trie = map<Bytes, AhoNode>

  /** Every node is filed under its own path, and the empty path is filed. */
  ghost predicate Indexed(trie: Trie) {
    && [] in trie
    && forall w :: w in trie ==> trie[w].path == w && trie[w].depth == |w|
  }

  ghost predicate PrefixClosed(trie: Trie) {
    forall w: Bytes, b: byte :: w + [b] in trie ==> w in trie
  }

  /** The children of a node are the nodes one byte longer. */
  ghost predicate Linked(trie: Trie)
    reads trie.Values`children
  {
    forall w, b :: w in trie ==>
      && (b in trie[w].children <==> w + [b] in trie)
      && (w + [b] in trie ==> trie[w].children[b] == trie[w + [b]])
  }

  ghost predicate Outputs(d: Dictionary, trie: Trie)
    reads trie.Values`output
  {
    forall w :: w in trie ==> trie[w].output == PatternFor(d, w)
  }

  /** The nodes are the prefixes of patterns. */
  ghost predicate Spells(d: Dictionary, trie: Trie) {
    forall w :: w in trie <==> InTrie(d, w)
  }

  ghost predicate FailsAt(d: Dictionary, trie: Trie, w: Bytes)
    requires w in trie
    reads trie.Values`fail
  {
    if w == [] then trie[w].fail == trie[w]
    else Fail(d, w) in trie && trie[w].fail == trie[Fail(d, w)]
  }

  ghost predicate SuffixAt(d: Dictionary, trie: Trie, w: Bytes)
    requires w in trie
    reads trie.Values`dictSuffix
  {
    if w == [] || DictSuffix(d, w).None? then trie[w].dictSuffix == null
    else DictSuffix(d, w).value in trie && trie[w].dictSuffix == trie[DictSuffix(d, w).value]
  }

  /** Phase 1 is complete: the trie of all patterns. */
  ghost predicate Shaped(d: Dictionary, trie: Trie, root: AhoNode)
    reads trie.Values`children, trie.Values`output
  {
    Indexed(trie) && trie[[]] == root && Linked(trie) && Outputs(d, trie) && Spells(d, trie)
  }

  /** All three phases are complete. */
  ghost predicate Compiled(d: Dictionary, trie: Trie, root: AhoNode)
    reads trie.Values
  {
    && Shaped(d, trie, root)
    && (forall w {:trigger FailsAt(d, trie, w)} :: w in trie ==> FailsAt(d, trie, w))
    && (forall w {:trigger SuffixAt(d, trie, w)} :: w in trie ==> SuffixAt(d, trie, w))
  }

  lemma AppendInjective<T>(u: seq<T>, x: T, w: seq<T>, y: T)
    requires u + [x] == w + [y]
    ensures u == w && x == y
  {
    assert (u + [x])[|u|] == x && (w + [y])[|w|] == y;
    assert u == (u + [x])[..|u|] == (w + [y])[..|w|];
  }

  /** A path that is not filed has no filed extension, and one way to be reached. */
  lemma NewPath(trie: Trie, x: Bytes, b: byte)
    requires PrefixClosed(trie)
    ensures x + [b] !in trie ==> forall c: byte :: x + [b] + [c] !in trie
    ensures forall w: Bytes, c: byte :: w + [c] == x + [b] ==> w == x && c == b
  {
    forall w: Bytes, c: byte | w + [c] == x + [b]
      ensures w == x && c == b
    {
      AppendInjective(w, c, x, b);
    }
  }

  /** A trie under construction: well linked, with the outputs of `d` so far. */
  ghost predicate Growing(d: Dictionary, trie: Trie, root: AhoNode)
    reads trie.Values`children, trie.Values`output
  {
    Indexed(trie) && PrefixClosed(trie) && trie[[]] == root && Linked(trie) && Outputs(d, trie)
  }

  /** `node` is the node of the trie for its path. */
  ghost predicate Filed(trie: Trie, node: AhoNode) {
    node.path in trie && trie[node.path] == node
  }

  method AddChild(root: AhoNode, ghost d: Dictionary, ghost trie: Trie, node: AhoNode, b: byte)
    returns (child: AhoNode, ghost trie': Trie)
    requires Growing(d, trie, root) && Filed(trie, node) && b !in node.children
    requires PatternFor(d, node.path + [b]).None?
    modifies node`children
    ensures Growing(d, trie', root)
    ensures fresh(child) && child.path == node.path + [b] && child.path !in trie
    ensures trie' == trie[child.path := child]
    ensures child.fail == root && child.dictSuffix == null && child.output == None
  {
    NewPath(trie, node.path, b);
    child := new AhoNode.Child(node.depth + 1, root, node.path + [b]);
    node.children := node.children[b := child];
    trie' := trie[child.path := child];
  }

  /** The paths filed while `word` is being inserted up to length `k`. */
  ghost predicate SpellsUpTo(d: Dictionary, trie: Trie, word: Bytes, k: nat)
    requires k <= |word|
  {
    forall w :: w in trie <==> InTrie(d, w) || IsPrefix(w, word[..k])
  }

  lemma SpellsStart(d: Dictionary, trie: Trie, word: Bytes)
    requires Spells(d, trie)
    ensures SpellsUpTo(d, trie, word, 0)
  {
  }

  lemma SpellsExtend(d: Dictionary, trie: Trie, trie': Trie, word: Bytes, k: nat)
    requires k < |word| && SpellsUpTo(d, trie, word, k)
    requires trie'.Keys == trie.Keys + {word[..k + 1]}
    ensures SpellsUpTo(d, trie', word, k + 1)
  {
    forall w ensures IsPrefix(w, word[..k + 1]) <==> IsPrefix(w, word[..k]) || w == word[..k + 1] {
      if |w| <= k {
        assert word[..k + 1][..|w|] == word[..k][..|w|];
      }
    }
  }

  lemma InTrieAppend(d: Dictionary, p: PatternEntry, w: Bytes)
    ensures InTrie(d + [p], w) <==> InTrie(d, w) || IsPrefix(w, p.bytes)
  {
    assert p in d + [p];
    if InTrie(d + [p], w) && w != [] {
      var q :| q in d + [p] && w <= q.bytes;
      assert q in d || q == p;
    }
    if InTrie(d, w) && w != [] {
      var q :| q in d && w <= q.bytes;
      assert q in d + [p];
    }
  }

  /** Nodes of `trie` stay where they are; the others are new. */
  ghost predicate Extends(trie': Trie, trie: Trie, created: set<AhoNode>) {
    forall w :: w in trie' ==> (w in trie && trie'[w] == trie[w]) || trie'[w] in created
  }

  /** The child of `node` on `b`, created if it is missing. */
  method Descend(root: AhoNode, ghost d: Dictionary, ghost trie: Trie, node: AhoNode, b: byte)
    returns (child: AhoNode, ghost trie': Trie, ghost created: set<AhoNode>)
    requires Growing(d, trie, root) && Filed(trie, node)
    requires node.path + [b] !in trie ==> PatternFor(d, node.path + [b]).None?
    modifies node`children
    ensures Growing(d, trie', root) && Filed(trie', child) && child.path == node.path + [b]
    ensures trie'.Keys == trie.Keys + {child.path}
    ensures Extends(trie', trie, created) && fresh(created)
  {
    if b !in node.children {
      child, trie' := AddChild(root, d, trie, node, b);
      created := {child};
    } else {
      child, trie', created := node.children[b], trie, {};
    }
  }

  /** Walk from the root along `word`, creating the nodes that are missing. */
  method GrowPath(root: AhoNode, ghost d: Dictionary, ghost trie: Trie, word: Bytes)
    returns (node: AhoNode, ghost trie': Trie, ghost created: set<AhoNode>)
    requires Growing(d, trie, root) && Spells(d, trie)
    modifies trie.Values`children
    ensures Growing(d, trie', root) && SpellsUpTo(d, trie', word, |word|)
    ensures Filed(trie', node) && node.path == word
    ensures Extends(trie', trie, created) && fresh(created)
  {
    hide InTrie;
    hide SpellsUpTo;
    hide Linked;
    hide Outputs;
    hide PrefixClosed;
    SpellsStart(d, trie, word);
    trie', node, created := trie, root, {};
    var k := 0;
    while k < |word|
      invariant 0 <= k <= |word|
      invariant Growing(d, trie', root) && SpellsUpTo(d, trie', word, k)
      invariant Filed(trie', node) && node.path == word[..k]
      invariant Extends(trie', trie, created) && fresh(created)
    {
      assert word[..k + 1] == word[..k] + [word[k]];
      PatternsAreNodesUpTo(d, trie', word, k);
      ghost var before, more := trie', {};
      node, trie', more := Descend(root, d, trie', node, word[k]);
      created := created + more;
      SpellsExtend(d, before, trie', word, k);
      k := k + 1;
    }
    assert word[..k] == word;
  }

  lemma PatternsAreNodesUpTo(d: Dictionary, trie: Trie, word: Bytes, k: nat)
    requires k < |word| && SpellsUpTo(d, trie, word, k)
    ensures word[..k + 1] !in trie ==> PatternFor(d, word[..k + 1]).None?
  {
    if PatternFor(d, word[..k + 1]).Some? {
      PatternsAreNodes(d, word[..k + 1]);
    }
  }

  predicate Supersedes(p: PatternEntry, output: Option<PatternEntry>) {
    output.None? || |p.bytes| > |output.value.bytes|
  }

  /** Add one pattern to the trie and mark the node where it ends. */
  method InsertPattern(root: AhoNode, ghost d: Dictionary, ghost trie: Trie, pattern: PatternEntry)
    returns (ghost trie': Trie, ghost created: set<AhoNode>)
    requires Growing(d, trie, root) && Spells(d, trie) && WellFormed(d + [pattern])
    modifies trie.Values`children, trie.Values`output
    ensures Growing(d + [pattern], trie', root) && Spells(d + [pattern], trie')
    ensures Extends(trie', trie, created) && fresh(created)
  {
    var node;
    node, trie', created := GrowPath(root, d, trie, pattern.bytes);
    NewPattern(d, pattern);
    if Supersedes(pattern, node.output) {
      node.output := Some(pattern);
    }
    assert pattern.bytes[..|pattern.bytes|] == pattern.bytes;
  }

  lemma NewPattern(d: Dictionary, p: PatternEntry)
    requires WellFormed(d + [p])
    ensures PatternFor(d, p.bytes).None?
    ensures forall w :: PatternFor(d + [p], w) == if w == p.bytes then Some(p) else PatternFor(d, w)
    ensures forall w :: InTrie(d + [p], w) <==> InTrie(d, w) || IsPrefix(w, p.bytes)
  {
    PatternForSound(d, p.bytes);
    forall q | q in d ensures q.bytes != p.bytes {
      var i :| 0 <= i < |d| && d[i] == q;
      assert (d + [p])[i] == q && (d + [p])[|d|] == p;
    }
    forall w ensures PatternFor(d + [p], w) == if w == p.bytes then Some(p) else PatternFor(d, w) {
      PatternForAppend(d, p, w);
    }
    forall w ensures InTrie(d + [p], w) <==> InTrie(d, w) || IsPrefix(w, p.bytes) {
      InTrieAppend(d, p, w);
    }
  }

  lemma PrefixWellFormed(d: Dictionary, k: nat)
    requires WellFormed(d) && k <= |d|
    ensures WellFormed(d[..k])
  {
  }

  method NewRoot() returns (root: AhoNode, ghost trie: Trie)
    ensures Growing([], trie, root) && Spells([], trie)
    ensures fresh(root) && trie == map[[] := root]
    ensures root.fail == root && root.dictSuffix == null
  {
    root := new AhoNode.Root();
    trie := map[[] := root];
    forall w: Bytes, b: byte ensures w + [b] !in trie {
      assert |w + [b]| > 0;
    }
  }

  /** Phase 1: the trie of all patterns, made of new nodes. */
  method BuildTrie(entries: Dictionary) returns (root: AhoNode, ghost trie: Trie)
    requires WellFormed(entries)
    ensures Shaped(entries, trie, root) && PrefixClosed(trie)
    ensures forall w :: w in trie ==> fresh(trie[w])
    ensures root.fail == root && root.dictSuffix == null
  {
    hide WellFormed;
    hide Spells;
    hide Linked;
    hide Outputs;
    hide PrefixClosed;
    root, trie := NewRoot();
    for i := 0 to |entries|
      invariant Growing(entries[..i], trie, root) && Spells(entries[..i], trie)
      invariant forall w :: w in trie ==> fresh(trie[w])
      invariant root.fail == root && root.dictSuffix == null
    {
      assert entries[..i + 1] == entries[..i] + [entries[i]];
      PrefixWellFormed(entries, i + 1);
      ghost var created;
      trie, created := InsertPattern(root, entries[..i], trie, entries[i]);
    }
    assert entries[..|entries|] == entries;
  }
}
