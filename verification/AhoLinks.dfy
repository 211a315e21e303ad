/** The second and third phases of the construction, failure links and
    dictionary-suffix links, and the transition that uses them. */
module AhoLinks {
  import opened Octets
  import opened Sequences
  import opened Patterns
  import opened AutomatonTheory
  import opened BreadthFirst
  import opened AhoTrie

  ghost function PathsOf(queue: seq<AhoNode>): seq<Bytes> {
    seq(|queue|, i requires 0 <= i < |queue| => queue[i].path)
  }

  /** The failure links of the nodes in `words` are right. */
  ghost predicate FailsOn(d: Dictionary, trie: Trie, words: set<Bytes>)
    reads trie.Values`fail
  {
    forall w {:trigger FailsAt(d, trie, w)} :: w in words && w in trie ==> FailsAt(d, trie, w)
  }

  ghost predicate SuffixesOn(d: Dictionary, trie: Trie, words: set<Bytes>)
    reads trie.Values`dictSuffix
  {
    forall w {:trigger SuffixAt(d, trie, w)} :: w in words && w in trie ==> SuffixAt(d, trie, w)
  }

  ghost function UpToDepth(trie: Trie, n: nat): set<Bytes> {
    set w | w in trie && |w| <= n
  }

  lemma TransitionTarget(d: Dictionary, trie: Trie, x: Bytes, b: byte)
    requires Spells(d, trie) && x in trie && (x == [] || x + [b] in trie)
    ensures LongestSuffix(d, x + [b]) == if x + [b] in trie then x + [b] else []
  {
    if x == [] {
      assert [] + [b] == [b] && [b][1..] == [];
    }
  }

  /** Read one byte: follow failure links until some node has a transition on `b`,
      or the root is reached. Each step shortens the path, so the loop ends, and
      the steps are paid for by the depth they give up. */
  method Advance(ghost d: Dictionary, ghost trie: Trie, root: AhoNode, start: AhoNode, b: byte)
    returns (state: AhoNode, ghost steps: nat)
    requires Shaped(d, trie, root) && Filed(trie, start)
    requires FailsOn(d, trie, UpToDepth(trie, |start.path|))
    ensures Filed(trie, state) && state.path == LongestSuffix(d, start.path + [b])
    ensures steps + |state.path| <= |start.path| + 1
  {
    state, steps := start, 0;
    while state != root && b !in state.children
      invariant Filed(trie, state) && |state.path| <= |start.path|
      invariant LongestSuffix(d, state.path + [b]) == LongestSuffix(d, start.path + [b])
      invariant steps + |state.path| <= |start.path|
      decreases |state.path|
    {
      assert state.path in UpToDepth(trie, |start.path|) && FailsAt(d, trie, state.path);
      FailStep(d, state.path, b);
      state := state.fail;
      steps := steps + 1;
    }
    TransitionTarget(d, trie, state.path, b);
    if b in state.children {
      state := state.children[b];
    }
  }

  // ---- Sweeping the children of a node ----------------------------------------

  /** `kids` lists the children of `x` on all bytes outside `todo`, once each. */
  ghost predicate KidsExcept(keys: set<Bytes>, x: Bytes, kids: seq<Bytes>, todo: set<byte>) {
    && (forall i, j :: 0 <= i < j < |kids| ==> kids[i] != kids[j])
    && (forall w :: w in kids ==> w in keys && |w| == |x| + 1 && w == x + [w[|x|]] && w[|x|] !in todo)
    && (forall b: byte :: x + [b] in keys && b !in todo ==> x + [b] in kids)
  }

  lemma KidsNext(keys: set<Bytes>, x: Bytes, kids: seq<Bytes>, todo: set<byte>, b: byte)
    requires KidsExcept(keys, x, kids, todo) && b in todo && x + [b] in keys
    ensures KidsExcept(keys, x, kids + [x + [b]], todo - {b})
  {
    var w := x + [b];
    var next := kids + [w];
    assert w[|x|] == b;
    assert w !in kids;
    assert forall v :: v in next <==> v in kids || v == w;
  }

  lemma NoKidsYet(trie: Trie, node: AhoNode)
    requires Filed(trie, node) && Linked(trie)
    ensures KidsExcept(trie.Keys, node.path, [], node.children.Keys)
  {
  }

  lemma AllKids(keys: set<Bytes>, x: Bytes, kids: seq<Bytes>)
    requires KidsExcept(keys, x, kids, {})
    ensures Kids(keys, x, kids)
  {
  }

  lemma PathsOfAppend(queue: seq<AhoNode>, node: AhoNode)
    ensures PathsOf(queue + [node]) == PathsOf(queue) + [node.path]
  {
  }

  lemma PathsOfTail(queue: seq<AhoNode>)
    requires queue != []
    ensures PathsOf(queue[1..]) == PathsOf(queue)[1..]
    ensures PathsOf(queue)[0] == queue[0].path
  {
  }

  // ---- Phase 2: failure links -------------------------------------------------

  /** The guard of the source against a failure link to the node itself. */
  function NoSelfLink(child: AhoNode, target: AhoNode, root: AhoNode): AhoNode {
    if target == child then root else target
  }

  /** Store a failure link. The guard never fires, because the target is strictly
      shallower: what is stored is the target. */
  method SetFail(ghost d: Dictionary, ghost trie: Trie, root: AhoNode, child: AhoNode, target: AhoNode, ghost words: set<Bytes>)
    requires Indexed(trie) && Filed(trie, child) && Filed(trie, target)
    requires child.path != [] && target.path == Fail(d, child.path)
    requires FailsOn(d, trie, words)
    modifies child`fail
    ensures child.fail == target
    ensures FailsOn(d, trie, words + {child.path})
  {
    child.fail := NoSelfLink(child, target, root);
    forall w | w in words + {child.path} && w in trie ensures FailsAt(d, trie, w) {
      assert w != child.path ==> old(FailsAt(d, trie, w));
    }
  }

  ghost function SetOf(words: seq<Bytes>): set<Bytes> {
    set w | w in words
  }

  /** Point the failure link of one child to the right node. */
  method LinkChild(ghost d: Dictionary, ghost trie: Trie, root: AhoNode, node: AhoNode, b: byte, ghost words: set<Bytes>)
    returns (child: AhoNode)
    requires Shaped(d, trie, root) && Filed(trie, node) && node != root && b in node.children
    requires FailsOn(d, trie, words) && UpToDepth(trie, |node.path|) <= words
    modifies trie.Values`fail
    ensures Filed(trie, child) && child.path == node.path + [b]
    ensures FailsOn(d, trie, words + {child.path})
  {
    child := node.children[b];
    assert node.path in UpToDepth(trie, |node.path|) && FailsAt(d, trie, node.path);
    ChildFail(d, node.path, b);
    var target, _ := Advance(d, trie, root, node.fail, b);
    SetFail(d, trie, root, child, target, words);
  }

  /** Every node in the queue is a node of the trie. */
  ghost predicate AllFiled(trie: Trie, queue: seq<AhoNode>) {
    forall n :: n in queue ==> Filed(trie, n)
  }

  /** Link all children of a dequeued node and append them to the queue. */
  method LinkChildren(ghost d: Dictionary, ghost trie: Trie, root: AhoNode, node: AhoNode,
                      queue: seq<AhoNode>, ghost words: set<Bytes>)
    returns (queue': seq<AhoNode>, ghost kids: seq<Bytes>)
    requires Shaped(d, trie, root) && Filed(trie, node) && node != root
    requires FailsOn(d, trie, words) && UpToDepth(trie, |node.path|) <= words
    requires AllFiled(trie, queue)
    modifies trie.Values`fail
    ensures Kids(trie.Keys, node.path, kids)
    ensures PathsOf(queue') == PathsOf(queue) + kids
    ensures AllFiled(trie, queue')
    ensures FailsOn(d, trie, words + SetOf(kids))
  {
    hide KidsExcept;
    hide Indexed;
    hide Linked;
    hide Outputs;
    hide Spells;
    hide FailsAt;
    queue', kids := queue, [];
    var todo := node.children.Keys;
    NoKidsYet(trie, node);
    while todo != {}
      invariant todo <= node.children.Keys
      invariant KidsExcept(trie.Keys, node.path, kids, todo)
      invariant PathsOf(queue') == PathsOf(queue) + kids
      invariant AllFiled(trie, queue')
      invariant FailsOn(d, trie, words + SetOf(kids))
    {
      var b :| b in todo;
      KidInTrie(d, trie, root, node, b);
      var child := LinkChild(d, trie, root, node, b, words + SetOf(kids));
      KidsNext(trie.Keys, node.path, kids, todo, b);
      PathsOfAppend(queue', child);
      ConcatAssociative(PathsOf(queue), kids, [child.path]);
      assert words + SetOf(kids + [child.path]) == words + SetOf(kids) + {child.path};
      queue', kids, todo := queue' + [child], kids + [child.path], todo - {b};
    }
    AllKids(trie.Keys, node.path, kids);
  }

  lemma KidInTrie(d: Dictionary, trie: Trie, root: AhoNode, node: AhoNode, b: byte)
    requires Shaped(d, trie, root) && Filed(trie, node) && b in node.children
    ensures node.path + [b] in trie
    ensures Filed(trie, node.children[b]) && node.children[b].path == node.path + [b]
  {
  }

  /** The children of the root fail to the root. */
  method LinkRootChildren(ghost d: Dictionary, ghost trie: Trie, root: AhoNode)
    returns (queue: seq<AhoNode>, ghost kids: seq<Bytes>)
    requires Shaped(d, trie, root) && FailsOn(d, trie, {[]})
    modifies trie.Values`fail
    ensures Kids(trie.Keys, [], kids) && PathsOf(queue) == kids && AllFiled(trie, queue)
    ensures FailsOn(d, trie, {[]} + SetOf(kids))
  {
    hide KidsExcept;
    hide Linked;
    hide Outputs;
    hide Spells;
    queue, kids := [], [];
    var todo := root.children.Keys;
    NoKidsYet(trie, root);
    while todo != {}
      invariant todo <= root.children.Keys
      invariant KidsExcept(trie.Keys, [], kids, todo)
      invariant PathsOf(queue) == kids && AllFiled(trie, queue)
      invariant FailsOn(d, trie, {[]} + SetOf(kids))
    {
      var b :| b in todo;
      KidInTrie(d, trie, root, root, b);
      var child := root.children[b];
      assert [] + [b] == [b] && Fail(d, [b]) == [] by { FailOfSingle(d, b); }
      SetFail(d, trie, root, child, root, {[]} + SetOf(kids));
      KidsNext(trie.Keys, [], kids, todo, b);
      PathsOfAppend(queue, child);
      assert {[]} + SetOf(kids + [child.path]) == {[]} + SetOf(kids) + {child.path};
      queue, kids, todo := queue + [child], kids + [child.path], todo - {b};
    }
    AllKids(trie.Keys, [], kids);
  }

  lemma FailOfSingle(d: Dictionary, b: byte)
    ensures Fail(d, [b]) == []
  {
  }

  lemma ReachedCoversDepth(trie: Trie, queue: seq<Bytes>, done: set<Bytes>)
    requires Frontier(trie.Keys, queue, done) && queue != []
    ensures UpToDepth(trie, |queue[0]|) <= done + SetOf(queue)
  {
    forall w | w in UpToDepth(trie, |queue[0]|) ensures w in done + SetOf(queue) {
      NoLongerIsReached(trie.Keys, queue, done, w);
    }
  }

  /** Phase 2: breadth first, so that every link followed is already right. */
  method LinkFailures(ghost d: Dictionary, ghost trie: Trie, root: AhoNode)
    requires Shaped(d, trie, root) && PrefixClosed(trie) && root.fail == root
    modifies trie.Values`fail
    ensures FailsOn(d, trie, trie.Keys)
  {
    hide Linked;
    hide Outputs;
    hide Spells;
    hide FailsAt;
    hide Kids;
    hide Frontier;
    ghost var done: set<Bytes> := {};
    RootFails(d, trie, root);
    var queue, kids := LinkRootChildren(d, trie, root);
    SweepStart(trie.Keys, kids);
    done := {[]};
    while queue != []
      invariant Frontier(trie.Keys, PathsOf(queue), done) && AllFiled(trie, queue)
      invariant [] in done
      invariant FailsOn(d, trie, done + SetOf(PathsOf(queue)))
      decreases trie.Keys - done
    {
      var node := queue[0];
      ghost var paths := PathsOf(queue);
      ReachedCoversDepth(trie, paths, done);
      FrontIsNew(trie.Keys, paths, done);
      PathsOfTail(queue);
      queue, kids := LinkChildren(d, trie, root, node, queue[1..], done + SetOf(paths));
      FrontierStep(trie.Keys, paths, done, kids);
      done := done + {node.path};
      assert done + SetOf(PathsOf(queue)) <= done + SetOf(paths) + SetOf(kids);
    }
    FrontierEnd(trie.Keys, done);
  }

  lemma RootFails(d: Dictionary, trie: Trie, root: AhoNode)
    requires [] in trie && trie[[]] == root && root.fail == root
    ensures FailsOn(d, trie, {[]})
  {
  }

  lemma FrontIsNew(keys: set<Bytes>, queue: seq<Bytes>, done: set<Bytes>)
    requires Frontier(keys, queue, done) && queue != []
    ensures queue[0] in keys && queue[0] !in done
  {
  }

  // ---- Phase 3: dictionary-suffix links ---------------------------------------

  lemma NoEmptyPattern(d: Dictionary)
    requires WellFormed(d)
    ensures PatternFor(d, []).None?
  {
    PatternForSound(d, []);
  }

  /** Point one dictionary-suffix link: to the failure target if a pattern ends
      there, and otherwise wherever that target points. */
  method SetSuffix(ghost d: Dictionary, ghost trie: Trie, root: AhoNode, node: AhoNode, ghost done: set<Bytes>)
    requires Shaped(d, trie, root) && WellFormed(d) && Filed(trie, node) && node != root
    requires FailsOn(d, trie, trie.Keys) && SuffixesOn(d, trie, done)
    requires Fail(d, node.path) in done
    modifies node`dictSuffix
    ensures SuffixesOn(d, trie, done + {node.path})
  {
    hide Linked;
    hide Spells;
    hide DictSuffix;
    hide WellFormed;
    assert FailsAt(d, trie, node.path);
    NoEmptyPattern(d);
    DictSuffixLaw(d, node.path);
    assert SuffixAt(d, trie, Fail(d, node.path));
    node.dictSuffix := if node.fail.output.Some? then node.fail else node.fail.dictSuffix;
    forall w | w in done + {node.path} && w in trie ensures SuffixAt(d, trie, w) {
      assert w != node.path ==> old(SuffixAt(d, trie, w));
    }
  }

  /** Append the children of a node to the queue. */
  method PushChildren(ghost d: Dictionary, ghost trie: Trie, root: AhoNode, node: AhoNode, queue: seq<AhoNode>)
    returns (queue': seq<AhoNode>, ghost kids: seq<Bytes>)
    requires Shaped(d, trie, root) && Filed(trie, node) && AllFiled(trie, queue)
    ensures Kids(trie.Keys, node.path, kids)
    ensures PathsOf(queue') == PathsOf(queue) + kids && AllFiled(trie, queue')
  {
    hide KidsExcept;
    hide Indexed;
    hide Linked;
    hide Outputs;
    hide Spells;
    queue', kids := queue, [];
    var todo := node.children.Keys;
    NoKidsYet(trie, node);
    while todo != {}
      invariant todo <= node.children.Keys
      invariant KidsExcept(trie.Keys, node.path, kids, todo)
      invariant PathsOf(queue') == PathsOf(queue) + kids && AllFiled(trie, queue')
    {
      var b :| b in todo;
      KidInTrie(d, trie, root, node, b);
      var child := node.children[b];
      KidsNext(trie.Keys, node.path, kids, todo, b);
      PathsOfAppend(queue', child);
      ConcatAssociative(PathsOf(queue), kids, [child.path]);
      queue', kids, todo := queue' + [child], kids + [child.path], todo - {b};
    }
    AllKids(trie.Keys, node.path, kids);
  }

  /** Phase 3, again breadth first: the failure target is shallower, so its link is
      final when it is copied. */
  method LinkSuffixes(ghost d: Dictionary, ghost trie: Trie, root: AhoNode)
    requires Shaped(d, trie, root) && PrefixClosed(trie) && WellFormed(d)
    requires FailsOn(d, trie, trie.Keys) && root.dictSuffix == null
    modifies trie.Values`dictSuffix
    ensures SuffixesOn(d, trie, trie.Keys)
  {
    hide Linked;
    hide Outputs;
    hide Spells;
    hide SuffixAt;
    hide Kids;
    hide Frontier;
    hide WellFormed;
    hide FailsOn;
    hide SuffixesOn;
    hide Fail;
    ghost var done: set<Bytes> := {[]};
    RootSuffix(d, trie, root);
    var queue, kids := PushChildren(d, trie, root, root, []);
    SweepStart(trie.Keys, kids);
    assert PathsOf(queue) == kids;
    while queue != []
      invariant Frontier(trie.Keys, PathsOf(queue), done) && AllFiled(trie, queue)
      invariant [] in done
      invariant SuffixesOn(d, trie, done)
      decreases trie.Keys - done
    {
      var node := queue[0];
      ghost var paths := PathsOf(queue);
      PathsOfTail(queue);
      FrontIsNew(trie.Keys, paths, done);
      FailIsDone(d, trie, paths, done);
      assert Filed(trie, node) && trie[node.path] in trie.Values;
      SetSuffix(d, trie, root, node, done);
      queue, kids := PushChildren(d, trie, root, node, queue[1..]);
      FrontierStep(trie.Keys, paths, done, kids);
      done := done + {node.path};
    }
    FrontierEnd(trie.Keys, done);
  }

  lemma RootSuffix(d: Dictionary, trie: Trie, root: AhoNode)
    requires [] in trie && trie[[]] == root && root.dictSuffix == null
    ensures SuffixesOn(d, trie, {[]})
  {
  }

  lemma FailIsDone(d: Dictionary, trie: Trie, queue: seq<Bytes>, done: set<Bytes>)
    requires Frontier(trie.Keys, queue, done) && queue != [] && [] in done
    requires Spells(d, trie)
    ensures queue[0] != [] && Fail(d, queue[0]) in done
  {
    assert queue[0] in queue;
    LongestSuffixSound(d, queue[0][1..]);
    NoLongerIsReached(trie.Keys, queue, done, Fail(d, queue[0]));
  }

  /** All three phases. The nodes of the automaton are new; no other node is touched. */
  method Compile(entries: Dictionary) returns (root: AhoNode, ghost trie: Trie)
    requires WellFormed(entries)
    ensures Compiled(entries, trie, root)
    ensures forall w :: w in trie ==> fresh(trie[w])
  {
    root, trie := BuildTrie(entries);
    LinkFailures(entries, trie, root);
    LinkSuffixes(entries, trie, root);
  }
}
