/** The topic hierarchy: nodes with a slash-separated path and child nodes,
    and a tree whose declared topic count must match the number of nodes. */
module Topic {
  import opened Wrappers
  import opened PyText
  import opened SearchModels

  datatype TopicNode = TopicNode(
    name: string,
    path: string,
    children: seq<TopicNode>,
    documentCount: int,
    relevanceScore: real)

  datatype TopicError = NegativeCount | ScoreNotUnit | BadPath(reason: PathError) | ChildOutsideParent

  /** Every direct child's path starts with the parent's path, character by character. */
  predicate ChildrenUnder(path: string, children: seq<TopicNode>) {
    forall i :: 0 <= i < |children| ==> StartsWith(children[i].path, path)
  }

  /** The index of the first child whose path does not start with `path`. */
  function FirstStray(path: string, children: seq<TopicNode>): (r: Option<nat>)
    ensures r.None? <==> ChildrenUnder(path, children)
    ensures r.Some? ==> r.value < |children| && !StartsWith(children[r.value].path, path)
                        && ChildrenUnder(path, children[..r.value])
  {
    if children == [] then None
    else if !StartsWith(children[0].path, path) then Some(0)
    else
      match FirstStray(path, children[1..])
      case None => None
      case Some(k) =>
        assert children[..k + 1][1..] == children[1..][..k];
        Some(k + 1)
  }

  /** `TopicNode(...)` with its `__post_init__`: count, score, path, then each child in turn. */
  function NewTopicNode(n: TopicNode): (r: Result<TopicNode, TopicError>)
    ensures r.Success? <==> && n.documentCount >= 0
                            && 0.0 <= n.relevanceScore <= 1.0
                            && WellFormedPath(n.path)
                            && ChildrenUnder(n.path, n.children)
    ensures r.Success? ==> r.value == n
    ensures n.documentCount < 0 ==> r == Failure(NegativeCount)
    ensures n.documentCount >= 0 && !(0.0 <= n.relevanceScore <= 1.0) ==> r == Failure(ScoreNotUnit)
  {
    if n.documentCount < 0 then Failure(NegativeCount)
    else if !(0.0 <= n.relevanceScore <= 1.0) then Failure(ScoreNotUnit)
    else if ValidatePath(n.path).Failure? then Failure(BadPath(ValidatePath(n.path).error))
    else if FirstStray(n.path, n.children).Some? then Failure(ChildOutsideParent)
    else Success(n)
  }

  /** A node with the default count and score and no children: only its path is checked. */
  function Leaf(name: string, path: string): TopicNode {
    TopicNode(name, path, [], 0, 0.0)
  }

  /** The parent test is a plain string prefix: `algorithms` accepts a child `algorithmsX`
      as readily as `algorithms/X`. */
  lemma PrefixNotSegmentAware(name: string, p: string, q: string)
    requires WellFormedPath(p) && q != [] && q[|q| - 1] != '/'
    ensures NewTopicNode(TopicNode(name, p, [Leaf(name, p + q)], 0, 0.0)).Success?
  {
    PrefixStarts(p, q);
  }

  lemma PrefixStarts(x: string, y: string)
    ensures StartsWith(x + y, x)
  {
    assert (x + y)[..|x|] == x;
  }

  // ---------- counting ----------

  /** `_count_nodes`: each node counts once, plus all its descendants. */
  function CountNodes(ns: seq<TopicNode>): (n: nat)
    ensures n >= |ns|
    ensures n == 0 <==> ns == []
    decreases ns
  {
    if ns == [] then 0
    else
      assert ns[0] in ns;
      1 + CountNodes(ns[0].children) + CountNodes(ns[1..])
  }

  /** All the nodes, each before its descendants, siblings in order. */
  function Preorder(ns: seq<TopicNode>): seq<TopicNode>
    decreases ns
  {
    if ns == [] then []
    else
      assert ns[0] in ns;
      [ns[0]] + Preorder(ns[0].children) + Preorder(ns[1..])
  }

  /** The count is the number of nodes in the forest. */
  lemma {:induction false} CountIsPreorderLength(ns: seq<TopicNode>)
    ensures CountNodes(ns) == |Preorder(ns)|
    decreases ns
  {
    if ns != [] {
      assert ns[0] in ns;
      CountIsPreorderLength(ns[0].children);
      CountIsPreorderLength(ns[1..]);
    }
  }

  /** Counting distributes over the list of roots, as `sum` does. */
  lemma {:induction false} CountAppend(a: seq<TopicNode>, b: seq<TopicNode>)
    ensures CountNodes(a + b) == CountNodes(a) + CountNodes(b)
    decreases a
  {
    if a == [] {
      assert a + b == b;
    } else {
      assert (a + b)[0] == a[0] && (a + b)[1..] == a[1..] + b;
      CountAppend(a[1..], b);
    }
  }

  /** Every root counts at least once. */
  lemma {:induction false} CountAtLeastRoots(ns: seq<TopicNode>)
    ensures CountNodes(ns) >= |ns|
    decreases ns
  {
    if ns != [] {
      CountAtLeastRoots(ns[1..]);
    }
  }

  /** One node and its subtree. */
  lemma CountOne(n: TopicNode)
    ensures CountNodes([n]) == 1 + CountNodes(n.children)
  {
    assert [n][1..] == [];
  }

  // ---------- the tree ----------

  datatype TopicTree = TopicTree(rootNodes: seq<TopicNode>, totalTopics: int, generationTimestamp: int)

  datatype TreeError = TotalMismatch(expected: nat, got: int)

  /** `TopicTree(...)` with its `__post_init__`: the declared total must be the node count. */
  function NewTopicTree(t: TopicTree): (r: Result<TopicTree, TreeError>)
    ensures r.Success? <==> t.totalTopics == |Preorder(t.rootNodes)|
    ensures r.Success? ==> r.value == t
    ensures r.Failure? ==> r.error == TotalMismatch(|Preorder(t.rootNodes)|, t.totalTopics)
  {
    CountIsPreorderLength(t.rootNodes);
    var computed := CountNodes(t.rootNodes);
    if t.totalTopics != computed then Failure(TotalMismatch(computed, t.totalTopics)) else Success(t)
  }

  // ---------- the example of the tests ----------

  /** `a` > `a/t` > `a/t/b`, named `a`, `t` and `b`. */
  function ChainOf(a: string, t: string, b: string): TopicNode {
    var child := Leaf(b, a + "/" + t + "/" + b);
    var parent := TopicNode(t, a + "/" + t, [child], 0, 0.0);
    TopicNode(a, a, [parent], 0, 0.0)
  }

  /** algorithms > algorithms/trees > algorithms/trees/binary_trees. */
  function Chain(): TopicNode {
    ChainOf("algorithms", "trees", "binary_trees")
  }

  /** The chain has three nodes: a total of 3 is accepted, 2 is refused. */
  lemma ChainCounts(ts: int)
    ensures CountNodes([Chain()]) == 3
    ensures NewTopicTree(TopicTree([Chain()], 3, ts)).Success?
    ensures NewTopicTree(TopicTree([Chain()], 2, ts)) == Failure(TotalMismatch(3, 2))
  {
    var root := Chain();
    var parent := root.children[0];
    var child := parent.children[0];
    CountOne(child);
    CountOne(parent);
    CountOne(root);
    CountIsPreorderLength([root]);
  }

  /** Joining two names with a slash keeps the path well formed and extends the first. */
  lemma JoinPath(x: string, y: string)
    requires WellFormedPath(x) && y != [] && y[|y| - 1] != '/'
    ensures WellFormedPath(x + "/" + y) && StartsWith(x + "/" + y, x)
  {
    var p := x + "/" + y;
    assert p == x + ("/" + y);
    PrefixStarts(x, "/" + y);
    assert p[0] == x[0] && p[|p| - 1] == y[|y| - 1];
  }

  /** Whatever the three names, each node of the chain passes its own check. */
  lemma ChainOfValid(a: string, t: string, b: string)
    requires a != [] && t != [] && b != []
    requires a[0] != '/' && a[|a| - 1] != '/' && t[|t| - 1] != '/' && b[|b| - 1] != '/'
    ensures NewTopicNode(ChainOf(a, t, b).children[0].children[0]).Success?
    ensures NewTopicNode(ChainOf(a, t, b).children[0]).Success?
    ensures NewTopicNode(ChainOf(a, t, b)).Success?
  {
    JoinPath(a, t);
    JoinPath(a + "/" + t, b);
  }

  lemma ChainNodesValid()
    ensures NewTopicNode(Chain().children[0].children[0]).Success?
    ensures NewTopicNode(Chain().children[0]).Success?
    ensures NewTopicNode(Chain()).Success?
  {
    ChainOfValid("algorithms", "trees", "binary_trees");
  }
}
