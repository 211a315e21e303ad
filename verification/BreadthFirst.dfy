/** A breadth-first sweep over a prefix-closed set of words, on paths alone: what
    the queue and the processed set always guarantee. */
module BreadthFirst {
  import opened Octets
  import opened Patterns

  ghost predicate Closed(keys: set<Bytes>) {
    forall x: Bytes, b: byte :: x + [b] in keys ==> x in keys
  }

  ghost predicate Covered(queue: seq<Bytes>, w: Bytes) {
    exists x :: x in queue && IsPrefix(x, w)
  }

  ghost predicate InOrder(queue: seq<Bytes>) {
    && (forall i, j :: 0 <= i < j < |queue| ==> queue[i] != queue[j] && |queue[i]| <= |queue[j]|)
    && (forall i :: 0 <= i < |queue| ==> |queue[i]| <= |queue[0]| + 1)
  }

  /** Everything is processed, or lies below something that waits; the queue is
      level by level; whatever was reached has a processed parent. */
  ghost predicate Frontier(keys: set<Bytes>, queue: seq<Bytes>, done: set<Bytes>) {
    && InOrder(queue)
    && done <= keys
    && (forall x :: x in queue ==> x in keys && x !in done)
    && (forall w {:trigger Covered(queue, w)} :: w in keys && w !in done ==> Covered(queue, w))
    && (forall x: Bytes, b: byte :: x + [b] in done || x + [b] in queue ==> x in done)
  }

  /** `kids` lists, once each, the words of `keys` that extend `x` by one byte. */
  ghost predicate Kids(keys: set<Bytes>, x: Bytes, kids: seq<Bytes>) {
    && (forall i, j :: 0 <= i < j < |kids| ==> kids[i] != kids[j])
    && (forall w :: w in kids ==> w in keys && |w| == |x| + 1 && w == x + [w[|x|]])
    && (forall b: byte :: x + [b] in keys ==> x + [b] in kids)
  }

  lemma FrontierStart(keys: set<Bytes>)
    requires [] in keys
    ensures Frontier(keys, [[]], {})
  {
    forall w | w in keys ensures Covered([[]], w) {
      var root: Bytes := [];
      assert root in [root] && IsPrefix(root, w);
    }
  }

  lemma CoveredFromFront(queue: seq<Bytes>, w: Bytes)
    requires InOrder(queue) && Covered(queue, w)
    ensures queue != [] && |queue[0]| <= |w|
    ensures |w| == |queue[0]| ==> w in queue
  {
    var x :| x in queue && IsPrefix(x, w);
    var i :| 0 <= i < |queue| && queue[i] == x;
    assert |queue[0]| <= |queue[i]|;
    if |w| == |queue[0]| {
      assert x == w;
    }
  }

  /** Words no longer than the front of the queue are processed or waiting, and
      the shorter ones are processed. */
  lemma NoLongerIsReached(keys: set<Bytes>, queue: seq<Bytes>, done: set<Bytes>, w: Bytes)
    requires Frontier(keys, queue, done) && queue != [] && w in keys && |w| <= |queue[0]|
    ensures w in done || (w in queue && |w| == |queue[0]|)
  {
    if w !in done {
      assert Covered(queue, w);
      CoveredFromFront(queue, w);
    }
  }

  lemma StepStaysInOrder(queue: seq<Bytes>, kids: seq<Bytes>)
    requires queue != [] && InOrder(queue)
    requires forall i, j :: 0 <= i < j < |kids| ==> kids[i] != kids[j]
    requires forall w :: w in kids ==> w !in queue && |w| == |queue[0]| + 1
    ensures InOrder(queue[1..] + kids)
  {
    var next := queue[1..] + kids;
    var n := |queue| - 1;
    forall i | 0 <= i < |next|
      ensures |queue[0]| <= |next[i]| <= |queue[0]| + 1
      ensures i < n ==> next[i] == queue[i + 1]
      ensures i >= n ==> next[i] == kids[i - n]
    {
      if i >= n {
        assert kids[i - n] in kids;
      }
    }
  }

  lemma KidsAreNew(keys: set<Bytes>, queue: seq<Bytes>, done: set<Bytes>, kids: seq<Bytes>, w: Bytes)
    requires Frontier(keys, queue, done) && queue != [] && Kids(keys, queue[0], kids) && w in kids
    ensures w !in done && w !in queue && |w| == |queue[0]| + 1
  {
    assert queue[0] in queue;
  }

  lemma StillCovered(keys: set<Bytes>, queue: seq<Bytes>, done: set<Bytes>, kids: seq<Bytes>, w: Bytes)
    requires Closed(keys) && Frontier(keys, queue, done) && queue != [] && Kids(keys, queue[0], kids)
    requires w in keys && w !in done && w != queue[0]
    ensures Covered(queue[1..] + kids, w)
  {
    var x := queue[0];
    assert Covered(queue, w);
    var y :| y in queue && IsPrefix(y, w);
    if y == x {
      var z := w[..|x| + 1];
      PrefixInKeys(keys, w, |x| + 1);
      assert z == x + [w[|x|]];
      assert z in kids;
      assert z in queue[1..] + kids && IsPrefix(z, w);
    } else {
      var i :| 0 <= i < |queue| && queue[i] == y;
      assert queue[1..][i - 1] == y;
      assert y in queue[1..] + kids;
    }
  }

  lemma {:induction false} PrefixInKeys(keys: set<Bytes>, w: Bytes, n: nat)
    requires Closed(keys) && w in keys && n <= |w|
    ensures w[..n] in keys
    decreases |w|
  {
    if n == |w| {
      assert w[..n] == w;
    } else {
      assert w == w[..|w| - 1] + [w[|w| - 1]];
      PrefixInKeys(keys, w[..|w| - 1], n);
      assert w[..|w| - 1][..n] == w[..n];
    }
  }

  /** Taking the front off the queue and appending its children keeps the frontier. */
  lemma FrontierStep(keys: set<Bytes>, queue: seq<Bytes>, done: set<Bytes>, kids: seq<Bytes>)
    requires Closed(keys) && Frontier(keys, queue, done) && queue != [] && Kids(keys, queue[0], kids)
    ensures Frontier(keys, queue[1..] + kids, done + {queue[0]})
  {
    hide InOrder;
    hide Covered;
    var x := queue[0];
    var next := queue[1..] + kids;
    forall w | w in kids ensures w !in done && w !in queue && |w| == |x| + 1 {
      KidsAreNew(keys, queue, done, kids, w);
    }
    StepStaysInOrder(queue, kids);
    FrontIsFirst(queue);
    assert forall w :: w in next <==> (w in queue && w != x) || w in kids;
    forall w | w in keys && w !in done + {x} ensures Covered(next, w) {
      StillCovered(keys, queue, done, kids, w);
    }
    forall y: Bytes, b: byte | y + [b] in kids ensures y == x {
      assert y == (y + [b])[..|x|] == x;
    }
  }

  lemma FrontIsFirst(queue: seq<Bytes>)
    requires InOrder(queue) && queue != []
    ensures forall w :: w in queue[1..] <==> w in queue && w != queue[0]
  {
    forall w | w in queue && w != queue[0] ensures w in queue[1..] {
      var i :| 0 <= i < |queue| && queue[i] == w;
      assert queue[1..][i - 1] == w;
    }
  }

  /** The sweep starts with the root processed and its children waiting. */
  lemma SweepStart(keys: set<Bytes>, kids: seq<Bytes>)
    requires Closed(keys) && [] in keys && Kids(keys, [], kids)
    ensures Frontier(keys, kids, {[]})
  {
    var root: Bytes := [];
    FrontierStart(keys);
    FrontierStep(keys, [root], {}, kids);
    assert [root][1..] + kids == kids;
    assert {} + {root} == {root};
  }

  lemma FrontierEnd(keys: set<Bytes>, done: set<Bytes>)
    requires Frontier(keys, [], done)
    ensures done == keys
  {
    forall w | w in keys ensures w in done {
      assert !Covered([], w);
    }
  }
}
