/** Depth reconstruction (FindCallsFrom.cs, GetDataRaw, lines 231-288).

    The samples of one thread arrive in depth-first order and carry only the
    number of their direct children. The reader keeps a stack of "children
    still to come" counters, one per open ancestor: a sample's depth is one
    more than the stack size; a sample with children pushes their count; a
    leaf pops every ancestor whose last child it was and decrements the first
    one that still has children to come.

    Stacks are sequences with the top at the end. The functions here specify
    the reader; the reader itself is the sample loop of `Ingest.ReadSamples`. */
module Depth {

  predicate AllPositive(s: seq<int>) {
    forall i :: 0 <= i < |s| ==> s[i] >= 1
  }

  /** The pop loop run after a leaf (lines 279-287): pop entries until one
      with more than one child left is found, and push it back decremented. */
  function Close(s: seq<int>): (r: seq<int>)
    ensures |r| <= |s|
    ensures AllPositive(s) ==> AllPositive(r)
    ensures r == [] || (|r| <= |s| && r[..|r| - 1] == s[..|r| - 1] && r[|r| - 1] == s[|r| - 1] - 1 >= 1)
    ensures forall i :: |r| <= i < |s| ==> s[i] <= 1
  {
    if s == [] then []
    else if s[|s| - 1] > 1 then s[..|s| - 1] + [s[|s| - 1] - 1]
    else Close(s[..|s| - 1])
  }

  /** The stack update for one sample with `children` direct children
      (lines 272-288). */
  function Step(s: seq<int>, children: int): (r: seq<int>)
    ensures children > 0 ==> |r| == |s| + 1
    ensures children <= 0 ==> |r| <= |s|
    ensures AllPositive(s) ==> AllPositive(r)
  {
    if children > 0 then s + [children] else Close(s)
  }

  /** The stack after reading samples with the children counts `cs`,
      starting from stack `s`. */
  function Replay(s: seq<int>, cs: seq<int>): (r: seq<int>)
    ensures AllPositive(s) ==> AllPositive(r)
    decreases cs
  {
    if cs == [] then s else Replay(Step(s, cs[0]), cs[1..])
  }

  /** The depths given to samples with the children counts `cs`, read from
      stack `s`: each is one more than the stack size when it is read. */
  function Run(s: seq<int>, cs: seq<int>): (r: seq<nat>)
    ensures |r| == |cs|
    ensures cs != [] ==> r[0] == |s| + 1
    ensures forall i :: 0 <= i < |r| ==> r[i] >= 1
    decreases cs
  {
    if cs == [] then [] else [|s| + 1] + Run(Step(s, cs[0]), cs[1..])
  }

  /** Depths of one thread's samples: the stack is cleared at the start of
      every thread (line 231). */
  function Depths(cs: seq<int>): seq<nat> {
    Run([], cs)
  }

  /** Reading `a` and then `b` is reading `a + b`. */
  lemma {:induction false} Compose(s: seq<int>, a: seq<int>, b: seq<int>)
    ensures Replay(s, a + b) == Replay(Replay(s, a), b)
    ensures Run(s, a + b) == Run(s, a) + Run(Replay(s, a), b)
    decreases |a|
  {
    if a != [] {
      assert (a + b)[0] == a[0];
      assert (a + b)[1..] == a[1..] + b;
      Compose(Step(s, a[0]), a[1..], b);
    } else {
      assert a + b == b;
    }
  }

  /** One more sample: the shape the reading loop advances by. */
  lemma Snoc(s: seq<int>, cs: seq<int>, c: int)
    ensures Replay(s, cs + [c]) == Step(Replay(s, cs), c)
    ensures Run(s, cs + [c]) == Run(s, cs) + [|Replay(s, cs)| + 1]
  {
    Compose(s, cs, [c]);
    assert [c][1..] == [];
  }

  /** The depth of sample `i` is one more than the size of the stack left by
      the samples before it. */
  lemma RunAt(s: seq<int>, cs: seq<int>, i: nat)
    requires i < |cs|
    ensures Run(s, cs)[i] == |Replay(s, cs[..i])| + 1
  {
    Compose(s, cs[..i], cs[i..]);
    assert cs[..i] + cs[i..] == cs;
  }

  /** The first sample of a thread has depth 1, and every stack entry is at
      least 1 at any point of the thread. */
  lemma ThreadStart(cs: seq<int>, i: nat)
    requires i <= |cs|
    ensures cs != [] ==> Depths(cs)[0] == 1
    ensures AllPositive(Replay([], cs[..i]))
  {
  }

  /** Depth grows by at most one from a sample to the next: a sample is at
      most one level below its predecessor (a leaf never grows the stack,
      a parent grows it by one). */
  lemma {:induction false} DepthRisesByAtMostOne(s: seq<int>, cs: seq<int>, i: nat)
    requires i + 1 < |cs|
    ensures Run(s, cs)[i + 1] <= Run(s, cs)[i] + 1
    decreases i
  {
    if i > 0 {
      DepthRisesByAtMostOne(Step(s, cs[0]), cs[1..], i - 1);
    }
  }

  /** Reading one sample in front of the rest. */
  lemma RunCons(s: seq<int>, c: int, rest: seq<int>)
    ensures Run(s, [c] + rest) == [|s| + 1] + Run(Step(s, c), rest)
  {
    assert ([c] + rest)[0] == c && ([c] + rest)[1..] == rest;
  }

  /** A root and its two children: [2,0,0] gives depths [1,2,2]. */
  lemma ExampleSiblings()
    ensures Depths([2, 0, 0]) == [1, 2, 2]
  {
    assert Step([], 2) == [2];
    assert Step([2], 0) == [1];
    RunCons([1], 0, []);
    RunCons([2], 0, [0]);
    RunCons([], 2, [0, 0]);
    assert [2, 0, 0] == [2] + [0, 0] && [0, 0] == [0] + [0] && [0] == [0] + [];
  }

  /** A leaf that closes two ancestors in one step: [1,1,0,0] gives depths
      [1,2,3,1]. */
  lemma ExampleClose()
    ensures Depths([1, 1, 0, 0]) == [1, 2, 3, 1]
  {
    ChildThenClose();
    assert Step([], 1) == [1];
    RunCons([], 1, [1, 0, 0]);
    assert [1, 1, 0, 0] == [1] + [1, 0, 0];
  }

  /** Under one open ancestor with one child, a parent of one leaf: the
      leaf closes both and the sample after it is back at depth 1. */
  lemma ChildThenClose()
    ensures Run([1], [1, 0, 0]) == [2, 3, 1]
  {
    LeafClosesTwo();
    assert Step([1], 1) == [1, 1];
    RunCons([1], 1, [0, 0]);
    assert [1, 0, 0] == [1] + [0, 0];
  }

  /** Under two open ancestors with one child each, a leaf closes both, so
      the next sample is back at depth 1. */
  lemma LeafClosesTwo()
    ensures Run([1, 1], [0, 0]) == [3, 1]
  {
    assert Close([1, 1]) == [] by {
      assert [1, 1][..1] == [1];
      assert [1][..0] == [];
    }
    RunCons([], 0, []);
    assert [0] == [0] + [];
    RunCons([1, 1], 0, [0]);
    assert [0, 0] == [0] + [0];
  }

  // ---------------------------------------------------------------------
  // Correctness: on the preorder-with-arity encoding of a tree, the reader
  // gives every node its depth in the tree.

  datatype Tree = Node(children: Forest)
  datatype Forest = Empty | Cons(head: Tree, tail: Forest)

  function Count(f: Forest): nat {
    match f
    case Empty => 0
    case Cons(_, r) => 1 + Count(r)
  }

  /** Preorder with arity: each node is its number of children followed by
      the encodings of its children. */
  function Encode(t: Tree): seq<int> {
    [Count(t.children)] + EncodeForest(t.children)
  }

  function EncodeForest(f: Forest): seq<int> {
    match f
    case Empty => []
    case Cons(h, r) => Encode(h) + EncodeForest(r)
  }

  /** The depth of every node in preorder, the tree's root being at `d`. */
  function TreeDepths(t: Tree, d: nat): seq<nat> {
    [d] + ForestDepths(t.children, d + 1)
  }

  function ForestDepths(f: Forest, d: nat): seq<nat> {
    match f
    case Empty => []
    case Cons(h, r) => TreeDepths(h, d) + ForestDepths(r, d)
  }

  /** Reading a whole subtree from stack `s` gives its nodes their depths
      below the |s| open ancestors and leaves the stack as a leaf in their
      place would. */
  lemma {:induction false} TreeRun(t: Tree, s: seq<int>)
    ensures Run(s, Encode(t)) == TreeDepths(t, |s| + 1)
    ensures Replay(s, Encode(t)) == Close(s)
    decreases t, 1
  {
    var k := Count(t.children);
    var e := EncodeForest(t.children);
    assert Encode(t)[0] == k && Encode(t)[1..] == e;
    if k == 0 {
      assert t.children == Empty;
      assert e == [];
    } else {
      ForestRun(t.children, s);
    }
  }

  /** Reading the children of a node, once the node pushed their number. */
  lemma {:induction false} ForestRun(f: Forest, s: seq<int>)
    requires f != Empty
    ensures Run(s + [Count(f)], EncodeForest(f)) == ForestDepths(f, |s| + 2)
    ensures Replay(s + [Count(f)], EncodeForest(f)) == Close(s)
    decreases f, 0
  {
    var n := Count(f);
    var s' := s + [n];
    Compose(s', Encode(f.head), EncodeForest(f.tail));
    TreeRun(f.head, s');
    assert s'[..|s'| - 1] == s;
    if f.tail == Empty {
      assert n == 1 && s'[|s'| - 1] == 1;
    } else {
      assert Close(s') == s + [Count(f.tail)];
      ForestRun(f.tail, s);
    }
  }

  /** A thread's samples after the placeholder are the encoding of the
      forest of its top-level markers: the reader, starting from a cleared
      stack, gives each marker its depth in that forest (top level = 1) and
      ends with an empty stack. */
  lemma {:induction false} ThreadRun(f: Forest)
    ensures Depths(EncodeForest(f)) == ForestDepths(f, 1)
    ensures Replay([], EncodeForest(f)) == []
  {
    match f
    case Empty =>
    case Cons(h, r) =>
      Compose([], Encode(h), EncodeForest(r));
      TreeRun(h, []);
      ThreadRun(r);
  }
}
