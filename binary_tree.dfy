/**
 * The binary tree of lab-data-structures-and-algorithms/modules.py:
 * `BinaryTreeNode` objects linked through their `left` and `right` fields,
 * the perfect example tree `create_tree` numbers in preorder, the in-place
 * mirror `invert_tree`, preorder listing (`tree_to_list`) and iteration
 * (`iter_tree`), the breadth-first path search and the path lookup.
 *
 * Every node carries, as ghost state, the value `Tree` it stands for and
 * the set of nodes below it; `Valid()` ties the two to the fields.  Paths
 * are strings over `/` (go left) and `\` (go right).
 */
module BinaryTree {
  import opened Wrappers
  import opened Sequences

  /** The tree a node stands for, as a value. */
  datatype Tree = Nil | Node(item: int, left: Tree, right: Tree)

  const LeftNode: char := '/'
  const RightNode: char := '\\'

  /** The number of nodes. */
  function Size(t: Tree): nat {
    match t
    case Nil => 0
    case Node(_, l, r) => 1 + Size(l) + Size(r)
  }

  /** The items `_iter_node` yields: the node, then its left, then its right subtree. */
  function Preorder(t: Tree): (items: seq<int>)
    ensures |items| == Size(t)
  {
    match t
    case Nil => []
    case Node(x, l, r) => [x] + Preorder(l) + Preorder(r)
  }

  /** The tree with left and right swapped at every node. */
  function Mirror(t: Tree): (m: Tree)
    ensures Size(m) == Size(t)
  {
    match t
    case Nil => Nil
    case Node(x, l, r) => Node(x, Mirror(r), Mirror(l))
  }

  /** Mirroring twice gives the tree back. */
  lemma {:induction false} MirrorMirror(t: Tree)
    ensures Mirror(Mirror(t)) == t
  {
    match t
    case Nil =>
    case Node(x, l, r) =>
      MirrorMirror(l);
      MirrorMirror(r);
  }

  /** Mirroring keeps the root item and moves no item in or out of the tree. */
  lemma {:induction false} MirrorItems(t: Tree)
    ensures multiset(Preorder(Mirror(t))) == multiset(Preorder(t))
    ensures t.Node? ==> Mirror(t).Node? && Mirror(t).item == t.item
  {
    match t
    case Nil =>
    case Node(x, l, r) =>
      MirrorItems(l);
      MirrorItems(r);
      calc {
        multiset(Preorder(Mirror(t)));
        multiset([x] + Preorder(Mirror(r)) + Preorder(Mirror(l)));
        multiset([x]) + multiset(Preorder(r)) + multiset(Preorder(l));
        multiset([x] + Preorder(l) + Preorder(r));
      }
  }

  /** `2 ** n`, which is `1 << n`. */
  function Pow2(n: nat): (p: nat)
    ensures p >= 1
  {
    if n == 0 then 1 else 2 * Pow2(n - 1)
  }

  /**
   * The tree `_create_node` builds `level` levels deep when the shared
   * iterator is about to give `start`: every node takes the next number
   * before its left subtree does.
   */
  function Perfect(level: nat, start: int): Tree {
    if level == 0 then Nil
    else Node(start, Perfect(level - 1, start + 1), Perfect(level - 1, start + Pow2(level - 1)))
  }

  /** The numbers `start, start + 1, ..., end - 1`: `range(start, end)`. */
  function Range(start: int, end: int): (r: seq<int>)
    ensures |r| == if end <= start then 0 else end - start
    decreases end - start
  {
    if end <= start then [] else [start] + Range(start + 1, end)
  }

  /** Its `i`th number is `start + i`. */
  lemma {:induction false} RangeAt(start: int, end: int, i: int)
    requires 0 <= i < end - start
    ensures Range(start, end)[i] == start + i
    decreases end - start
  {
    if i > 0 {
      RangeAt(start + 1, end, i - 1);
    }
  }

  /** Two adjacent ranges make one. */
  lemma {:induction false} RangeConcat(a: int, b: int, c: int)
    requires a <= b <= c
    ensures Range(a, b) + Range(b, c) == Range(a, c)
    decreases b - a
  {
    if a == b {
      assert Range(a, b) == [];
      assert [] + Range(b, c) == Range(b, c);
    } else {
      RangeConcat(a + 1, b, c);
      Associative([a], Range(a + 1, b), Range(b, c));
    }
  }

  /** A number, then two adjacent ranges after it, make one range. */
  lemma RangeSplit(start: int, mid: int, end: int)
    requires start < mid <= end
    ensures [start] + Range(start + 1, mid) + Range(mid, end) == Range(start, end)
  {
    RangeConcat(start + 1, mid, end);
    Associative([start], Range(start + 1, mid), Range(mid, end));
  }

  /** A perfect tree lists its root, then its left half, then its right half. */
  lemma PerfectUnfold(level: nat, start: int)
    requires level > 0
    ensures Preorder(Perfect(level, start)) ==
      [start] + Preorder(Perfect(level - 1, start + 1)) + Preorder(Perfect(level - 1, start + Pow2(level - 1)))
  {
  }

  /**
   * The perfect tree lists the numbers it consumed, in order: the
   * `2 ** level - 1` numbers from `start` up to (not including) `end`.
   */
  lemma {:induction false} PerfectPreorder(level: nat, start: int, end: int)
    requires end == start + Pow2(level) - 1
    ensures Preorder(Perfect(level, start)) == Range(start, end)
  {
    if level > 0 {
      var half := Pow2(level - 1);
      var mid := start + half;
      assert end == mid + half - 1;
      PerfectUnfold(level, start);
      PerfectPreorder(level - 1, start + 1, mid);
      PerfectPreorder(level - 1, mid, end);
      RangeSplit(start, mid, end);
    } else {
      assert Range(start, end) == [];
    }
  }

  /** It has `2 ** level - 1` nodes. */
  lemma PerfectSize(level: nat, start: int)
    ensures Size(Perfect(level, start)) == Pow2(level) - 1
  {
    PerfectPreorder(level, start, start + Pow2(level) - 1);
  }

  /** The subtree at the end of `path`, or `None` when the path runs past a missing node. */
  function Subtree(t: Tree, path: string): Option<Tree> {
    if path == [] then Some(t)
    else if t.Nil? then None
    else if path[0] == LeftNode then Subtree(t.left, path[1..])
    else if path[0] == RightNode then Subtree(t.right, path[1..])
    else None
  }

  /** A path of left and right steps only. */
  predicate IsPath(path: string) {
    forall i :: 0 <= i < |path| ==> path[i] == LeftNode || path[i] == RightNode
  }

  /** The node at the end of `path` holds `x`. */
  predicate HoldsAt(t: Tree, path: string, x: int) {
    var s := Subtree(t, path);
    s.Some? && s.value.Node? && s.value.item == x
  }

  /** One more step at the end of a path goes one level further down. */
  lemma {:induction false} SubtreeSnoc(t: Tree, path: string, d: char)
    requires d == LeftNode || d == RightNode
    requires Subtree(t, path).Some? && Subtree(t, path).value.Node?
    ensures Subtree(t, path + [d]) ==
      Some(if d == LeftNode then Subtree(t, path).value.left else Subtree(t, path).value.right)
  {
    if path != [] {
      assert (path + [d])[0] == path[0] && (path + [d])[1..] == path[1..] + [d];
      if path[0] == LeftNode {
        SubtreeSnoc(t.left, path[1..], d);
      } else {
        SubtreeSnoc(t.right, path[1..], d);
      }
    } else {
      assert [] + [d] == [d] && [d][1..] == [];
    }
  }

  /** Below a missing node there is nothing to find. */
  lemma {:induction false} NothingBelowNil(t: Tree, path: string, q: string, x: int)
    requires Subtree(t, path) == Some(Nil) && path <= q
    ensures !HoldsAt(t, q, x)
  {
    if path != [] {
      if path[0] == LeftNode {
        NothingBelowNil(t.left, path[1..], q[1..], x);
      } else {
        NothingBelowNil(t.right, path[1..], q[1..], x);
      }
    } else if q != [] {
      assert Subtree(t, q) == None;
    }
  }

  /** A path that goes on past `path` takes a left or a right step right after it. */
  lemma {:induction false} PastPrefix(path: string, q: string)
    requires path <= q && q != path && IsPath(q)
    ensures path + [LeftNode] <= q || path + [RightNode] <= q
  {
    var d := q[|path|];
    assert q[..|path| + 1] == path + [d];
  }

  /** A path to a node holding `x`, for every item `x` the tree iterates. */
  function PathTo(t: Tree, x: int): (path: string)
    requires x in Preorder(t)
    ensures IsPath(path) && HoldsAt(t, path, x)
  {
    var Node(y, l, r) := t;
    if x == y then []
    else if x in Preorder(l) then [LeftNode] + PathTo(l, x)
    else [RightNode] + PathTo(r, x)
  }

  /** A path to a node holding `x` means the tree iterates `x`. */
  lemma {:induction false} HoldsAtItem(t: Tree, path: string, x: int)
    requires HoldsAt(t, path, x)
    ensures x in Preorder(t)
  {
    if path != [] {
      if path[0] == LeftNode {
        HoldsAtItem(t.left, path[1..], x);
      } else {
        HoldsAtItem(t.right, path[1..], x);
      }
    }
  }

  /**
   * `_get_item_from_node` on the tree a node stands for: follow `/` left
   * and `\` right; reading a missing node is AttributeError (`None` has no
   * `item`, `left` or `right`), and any other character is ValueError.
   */
  function Lookup(t: Tree, path: string): (r: Result<int>)
    ensures r.Ok? ==> HoldsAt(t, path, r.value)
    ensures IsPath(path) ==> (r.Ok? <==> Subtree(t, path).Some? && Subtree(t, path).value.Node?)
    ensures r.Err? ==> r.error == AttributeError || r.error == ValueError
    ensures IsPath(path) && r.Err? ==> r.error == AttributeError
  {
    if path == [] then (if t.Nil? then Err(AttributeError) else Ok(t.item))
    else if path[0] == LeftNode then (if t.Nil? then Err(AttributeError) else Lookup(t.left, path[1..]))
    else if path[0] == RightNode then (if t.Nil? then Err(AttributeError) else Lookup(t.right, path[1..]))
    else Err(ValueError)
  }

  /** The index of the first character of `path` that is neither `/` nor `\`, or its length. */
  function FirstBad(path: string): (i: nat)
    ensures i <= |path| && IsPath(path[..i])
    ensures i < |path| ==> path[i] != LeftNode && path[i] != RightNode
  {
    if path == [] || (path[0] != LeftNode && path[0] != RightNode) then 0
    else
      var i := 1 + FirstBad(path[1..]);
      assert forall k :: 1 <= k < i ==> path[..i][k] == path[1..][..i - 1][k - 1];
      i
  }

  /**
   * A lookup is ValueError exactly when the walk reaches the first
   * character that is not a direction without stepping out of a missing
   * node, even when it stands on one (the direction is read before the
   * child); stepping out of a missing node first is AttributeError.
   */
  lemma {:induction false} LookupBadDirection(t: Tree, path: string)
    ensures Lookup(t, path) == Err(ValueError) <==>
      FirstBad(path) < |path| && Subtree(t, path[..FirstBad(path)]).Some?
  {
    if path != [] && (path[0] == LeftNode || path[0] == RightNode) {
      var i := FirstBad(path);
      assert path[..i][0] == path[0] && path[..i][1..] == path[1..][..i - 1];
      if t.Node? {
        LookupBadDirection(if path[0] == LeftNode then t.left else t.right, path[1..]);
      }
    }
  }

  /** The total number of nodes in a list of trees. */
  function Weight(ts: seq<Tree>): nat {
    if ts == [] then 0 else Size(ts[0]) + Weight(ts[1..])
  }

  lemma {:induction false} WeightConcat(a: seq<Tree>, b: seq<Tree>)
    ensures Weight(a + b) == Weight(a) + Weight(b)
  {
    if a != [] {
      assert (a + b)[1..] == a[1..] + b;
      WeightConcat(a[1..], b);
    } else {
      assert a + b == b;
    }
  }

  class BinaryTreeNode {
    var item: int
    var left: BinaryTreeNode?
    var right: BinaryTreeNode?
    ghost var Model: Tree
    ghost var Repr: set<object>

    /** The nodes below are distinct objects, no node is shared, and `Model` mirrors the fields. */
    ghost predicate Valid()
      reads this, Repr
      decreases Repr
    {
      && this in Repr
      && (left != null ==>
            left in Repr && left.Repr <= Repr && this !in left.Repr && left.Valid())
      && (right != null ==>
            right in Repr && right.Repr <= Repr && this !in right.Repr && right.Valid())
      && (left != null && right != null ==> left.Repr !! right.Repr)
      && Model == Node(item, ModelOf(left), ModelOf(right))
    }

    /** `BinaryTreeNode(item)`: a node with no children. */
    constructor (item: int)
      ensures Valid() && fresh(Repr)
      ensures Model == Node(item, Nil, Nil)
      ensures this.item == item && left == null && right == null
    {
      this.item := item;
      left := null;
      right := null;
      Model := Node(item, Nil, Nil);
      Repr := {this};
    }

    /**
     * `_invert_node`: swap the children of this node, then invert each of
     * them; the same nodes end up standing for the mirrored tree.
     */
    method Invert()
      requires Valid()
      modifies Repr
      ensures Valid() && Repr == old(Repr)
      ensures Model == Mirror(old(Model))
      decreases Repr
    {
      left, right := right, left;
      if left != null {
        left.Invert();
      }
      if right != null {
        right.Invert();
      }
      Model := Node(item, ModelOf(left), ModelOf(right));
    }
  }

  /** The tree a possibly missing node stands for. */
  ghost function ModelOf(node: BinaryTreeNode?): Tree
    reads node
  {
    if node == null then Nil else node.Model
  }

  /** A missing node, or a valid one. */
  ghost predicate ValidOrNull(node: BinaryTreeNode?)
    reads node, if node == null then {} else node.Repr
  {
    node == null || node.Valid()
  }

  /**
   * `_create_node`: build `level` levels, taking numbers from the shared
   * iterator, which is about to give `next`; `after` is what it is about to
   * give afterwards.
   */
  method CreateNode(next: int, level: nat) returns (node: BinaryTreeNode?, after: int)
    ensures after == next + Pow2(level) - 1
    ensures node == null <==> level == 0
    ensures node != null ==> node.Valid() && fresh(node.Repr)
    ensures ModelOf(node) == Perfect(level, next)
    decreases level
  {
    if level == 0 {
      return null, next;
    }
    var nextLevel := level - 1;
    assert Pow2(level) == 2 * Pow2(nextLevel);
    node := new BinaryTreeNode(next);
    var left, afterLeft := CreateNode(next + 1, nextLevel);
    node.left := left;
    var right, afterRight := CreateNode(afterLeft, nextLevel);
    node.right := right;
    ghost var below := (if left == null then {} else left.Repr) + (if right == null then {} else right.Repr);
    assert left != null && right != null ==> left.Repr !! right.Repr;
    assert node !in below;
    node.Repr := {node} + below;
    node.Model := Node(next, ModelOf(left), ModelOf(right));
    after := afterRight;
  }

  /**
   * `create_tree`: the perfect tree `levels` deep over `1 .. 2 ** levels - 1`,
   * `None` for no levels.  A negative shift count is ValueError.  The
   * source iterator always runs out exactly, so the RuntimeError for a
   * leftover number is never raised.
   */
  method CreateTree(levels: int) returns (outcome: Outcome, root: BinaryTreeNode?)
    ensures levels < 0 ==> outcome == Fail(ValueError) && root == null
    ensures levels >= 0 ==> outcome == Pass
    ensures levels >= 0 ==> (root == null <==> levels == 0)
    ensures root != null ==> root.Valid() && fresh(root.Repr)
    ensures levels >= 0 ==> ModelOf(root) == Perfect(levels, 1)
  {
    if levels < 0 {
      return Fail(ValueError), null;
    }
    var after;
    root, after := CreateNode(1, levels);
    assert after == Pow2(levels);
    outcome := Pass;
  }

  /** `_node_to_list`: append the items of the subtree at `node` to `items`, in preorder. */
  method NodeToList(node: BinaryTreeNode?, items: seq<int>) returns (result: seq<int>)
    requires ValidOrNull(node)
    ensures result == items + Preorder(ModelOf(node))
    decreases if node == null then {} else node.Repr
  {
    if node == null {
      return items;
    }
    ghost var left, right := Preorder(ModelOf(node.left)), Preorder(ModelOf(node.right));
    result := items + [node.item];
    result := NodeToList(node.left, result);
    result := NodeToList(node.right, result);
    Associative(items, [node.item], left);
    Associative(items, [node.item] + left, right);
  }

  /** `tree_to_list`: the items of the tree in preorder, one per node. */
  method TreeToList(root: BinaryTreeNode) returns (items: seq<int>)
    requires root.Valid()
    ensures items == Preorder(root.Model)
    ensures |items| == Size(root.Model)
  {
    items := NodeToList(root, []);
  }

  /** `_iter_node` over the linked nodes: the same preorder the tree stands for. */
  function IterNode(node: BinaryTreeNode?): (items: seq<int>)
    requires ValidOrNull(node)
    reads node, if node == null then {} else node.Repr
    ensures items == Preorder(ModelOf(node))
    decreases if node == null then {} else node.Repr
  {
    if node == null then []
    else [node.item] + IterNode(node.left) + IterNode(node.right)
  }

  /** `_get_item_from_node` over the linked nodes. */
  function GetItemFromNode(node: BinaryTreeNode?, path: string): (r: Result<int>)
    requires ValidOrNull(node)
    reads node, if node == null then {} else node.Repr
    ensures r == Lookup(ModelOf(node), path)
    decreases if node == null then {} else node.Repr
  {
    if path == [] then (if node == null then Err(AttributeError) else Ok(node.item))
    else if path[0] == LeftNode then
      (if node == null then Err(AttributeError) else GetItemFromNode(node.left, path[1..]))
    else if path[0] == RightNode then
      (if node == null then Err(AttributeError) else GetItemFromNode(node.right, path[1..]))
    else Err(ValueError)
  }

  /** `get_item_from_tree`: the path `ROOT` names the root, any other path is followed. */
  function GetItemFromTree(root: BinaryTreeNode, path: string): (r: Result<int>)
    requires root.Valid()
    reads root.Repr
    ensures path == "ROOT" ==> r == Ok(root.item)
    ensures path != "ROOT" ==> r == Lookup(root.Model, path)
  {
    if path == "ROOT" then Ok(root.item) else GetItemFromNode(root, path)
  }

  /** Every node holding `x` lies at or below some queued path. */
  ghost predicate Complete(t: Tree, nodes: seq<(BinaryTreeNode?, string)>, x: int) {
    forall q :: IsPath(q) && HoldsAt(t, q, x) ==>
      exists k :: 0 <= k < |nodes| && nodes[k].1 <= q
  }

  /** Queued paths grow by at most one step from front to back. */
  ghost predicate LevelOrder(nodes: seq<(BinaryTreeNode?, string)>) {
    forall i, j :: 0 <= i <= j < |nodes| ==> |nodes[i].1| <= |nodes[j].1| <= |nodes[i].1| + 1
  }

  /**
   * Taking the front entry off the queue, when it does not hold `x`, and
   * queueing its children keeps every node holding `x` covered.
   */
  lemma PopKeepsComplete(t: Tree, nodes: seq<(BinaryTreeNode?, string)>, front: Tree, x: int,
                         next: seq<(BinaryTreeNode?, string)>)
    requires |nodes| > 0 && Complete(t, nodes, x)
    requires Subtree(t, nodes[0].1) == Some(front) && (front.Nil? || front.item != x)
    requires front.Nil? ==> next == nodes[1..]
    requires front.Node? ==> |next| == |nodes| + 1 && next[..|nodes| - 1] == nodes[1..]
    requires front.Node? ==> next[|nodes| - 1].1 == nodes[0].1 + [LeftNode]
    requires front.Node? ==> next[|nodes|].1 == nodes[0].1 + [RightNode]
    ensures Complete(t, next, x)
  {
    var p := nodes[0].1;
    forall q | IsPath(q) && HoldsAt(t, q, x)
      ensures exists k :: 0 <= k < |next| && next[k].1 <= q
    {
      var k :| 0 <= k < |nodes| && nodes[k].1 <= q;
      if k > 0 {
        assert next[k - 1] == nodes[k];
      } else if front.Nil? {
        NothingBelowNil(t, p, q, x);
      } else {
        assert q != p;
        PastPrefix(p, q);
        if p + [LeftNode] <= q {
          assert next[|nodes| - 1].1 <= q;
        } else {
          assert next[|nodes|].1 <= q;
        }
      }
    }
  }

  /** The front of the queue is no further down than any node holding `x`. */
  lemma FrontIsShortest(t: Tree, nodes: seq<(BinaryTreeNode?, string)>, x: int)
    requires |nodes| > 0 && LevelOrder(nodes) && Complete(t, nodes, x)
    ensures forall q :: IsPath(q) && HoldsAt(t, q, x) ==> |nodes[0].1| <= |q|
  {
    forall q | IsPath(q) && HoldsAt(t, q, x)
      ensures |nodes[0].1| <= |q|
    {
      var k :| 0 <= k < |nodes| && nodes[k].1 <= q;
      assert |nodes[0].1| <= |nodes[k].1|;
    }
  }

  /** Queueing the children of the front, one step further down, keeps the level order. */
  lemma QueueChildrenInOrder(nodes: seq<(BinaryTreeNode?, string)>, children: seq<(BinaryTreeNode?, string)>)
    requires |nodes| > 0 && LevelOrder(nodes)
    requires forall c :: 0 <= c < |children| ==> |children[c].1| == |nodes[0].1| + 1
    ensures LevelOrder(nodes[1..] + children)
  {
    var next := nodes[1..] + children;
    forall i, j | 0 <= i <= j < |next|
      ensures |next[i].1| <= |next[j].1| <= |next[i].1| + 1
    {
      if j < |nodes| - 1 {
        assert next[i] == nodes[i + 1] && next[j] == nodes[j + 1];
      } else if i < |nodes| - 1 {
        assert next[i] == nodes[i + 1];
        assert |nodes[0].1| <= |nodes[i + 1].1|;
      }
    }
  }

  /** An empty queue that covers every node holding `x` means no node holds it. */
  lemma NoneLeft(t: Tree, x: int)
    requires Complete(t, [], x)
    ensures x !in Preorder(t)
  {
    if x in Preorder(t) {
      var q := PathTo(t, x);
      assert false;
    }
  }

  /** How `breadth_first_search_tree` shows a path: the empty path is `ROOT`. */
  function Shown(path: string): string {
    if path == "" then "ROOT" else path
  }

  /** The path a shown path stands for. */
  function Unshown(shown: string): string {
    if shown == "ROOT" then "" else shown
  }

  /** A shortest path to a node holding `x`. */
  ghost predicate ShortestPath(t: Tree, path: string, x: int) {
    && IsPath(path) && HoldsAt(t, path, x)
    && forall q :: IsPath(q) && HoldsAt(t, q, x) ==> |path| <= |q|
  }

  /** Every path shows as itself or `ROOT`, and reading it back gives the path. */
  lemma ShownUnshown(path: string)
    requires IsPath(path)
    ensures Unshown(Shown(path)) == path
  {
    if path != "" {
      assert path[0] != 'R';
    }
  }

  /** `get_item_from_tree` reads `x` through the shown form of a path to it. */
  lemma ReadBack(root: BinaryTreeNode, path: string, x: int)
    requires root.Valid() && IsPath(path) && HoldsAt(root.Model, path, x)
    ensures GetItemFromTree(root, Shown(path)) == Ok(x)
  {
    ShownUnshown(path);
    if path != "" {
      assert Shown(path) != "ROOT";
    }
  }

  /** Each queued path is a path of the tree, and leads to the queued tree. */
  ghost predicate Tracks(t: Tree, nodes: seq<(BinaryTreeNode?, string)>, models: seq<Tree>) {
    && |models| == |nodes|
    && forall k :: 0 <= k < |nodes| ==> IsPath(nodes[k].1) && Subtree(t, nodes[k].1) == Some(models[k])
  }

  /** Taking the front off the queue and queueing the children of its node keeps the tracking. */
  lemma TracksStep(t: Tree, nodes: seq<(BinaryTreeNode?, string)>, models: seq<Tree>,
                   children: seq<(BinaryTreeNode?, string)>, childModels: seq<Tree>)
    requires |nodes| > 0 && Tracks(t, nodes, models) && Tracks(t, children, childModels)
    ensures Tracks(t, nodes[1..] + children, models[1..] + childModels)
  {
    var next, nextModels := nodes[1..] + children, models[1..] + childModels;
    forall k | 0 <= k < |next|
      ensures IsPath(next[k].1) && Subtree(t, next[k].1) == Some(nextModels[k])
    {
      if k < |nodes| - 1 {
        assert next[k] == nodes[k + 1] && nextModels[k] == models[k + 1];
      } else {
        assert next[k] == children[k - |nodes| + 1] && nextModels[k] == childModels[k - |nodes| + 1];
      }
    }
  }

  /** A queued node: missing, or a valid node of the tree that stands for `m`. */
  ghost predicate Live(root: BinaryTreeNode, node: BinaryTreeNode?, m: Tree)
    reads root, root.Repr
  {
    if node == null then m == Nil
    else node in root.Repr && node.Repr <= root.Repr && node.Valid() && node.Model == m
  }

  /**
   * The state of the search: the queued nodes are nodes of the tree at the
   * end of their paths, in level order, and every node holding `x` is at or
   * below one of them.
   */
  ghost predicate Queued(root: BinaryTreeNode, x: int, nodes: seq<(BinaryTreeNode?, string)>, models: seq<Tree>)
    reads root, root.Repr
  {
    && Tracks(root.Model, nodes, models)
    && AllLive(root, nodes, models)
    && LevelOrder(nodes)
    && Complete(root.Model, nodes, x)
  }

  /** Every queued node is live, for the tree it stands for. */
  ghost predicate AllLive(root: BinaryTreeNode, nodes: seq<(BinaryTreeNode?, string)>, models: seq<Tree>)
    reads root, root.Repr
  {
    |models| == |nodes| && forall k :: 0 <= k < |nodes| ==> Live(root, nodes[k].0, models[k])
  }

  /** Dropping the front and appending live children leaves every queued node live. */
  lemma LiveStep(root: BinaryTreeNode, nodes: seq<(BinaryTreeNode?, string)>, models: seq<Tree>,
                 children: seq<(BinaryTreeNode?, string)>, childModels: seq<Tree>)
    requires nodes != [] && AllLive(root, nodes, models) && AllLive(root, children, childModels)
    ensures AllLive(root, nodes[1..] + children, models[1..] + childModels)
  {
    var next, nextModels := nodes[1..] + children, models[1..] + childModels;
    forall k | 0 <= k < |next|
      ensures Live(root, next[k].0, nextModels[k])
    {
      if k < |nodes| - 1 {
        assert next[k] == nodes[k + 1] && nextModels[k] == models[k + 1];
      } else {
        assert next[k] == children[k - |nodes| + 1] && nextModels[k] == childModels[k - |nodes| + 1];
      }
    }
  }

  /**
   * Replacing the front tree by its two subtrees lowers the total size; dropping
   * a missing front keeps it and shortens the queue.
   */
  lemma WeightStep(models: seq<Tree>, childModels: seq<Tree>)
    requires models != []
    requires models[0].Nil? ==> childModels == []
    requires models[0].Node? ==> childModels == [models[0].left, models[0].right]
    ensures Weight(models[1..] + childModels) < Weight(models)
      || (Weight(models[1..] + childModels) == Weight(models) && |models[1..] + childModels| < |models|)
  {
    WeightConcat(models[1..], childModels);
    if models[0].Node? {
      WeightConcat([models[0].left], [models[0].right]);
      assert [models[0].right][1..] == [];
    }
  }

  /**
   * One turn of the search loop when the front node does not hold `x`:
   * `popleft`, then queue the node's children, left first.
   */
  method Expand(root: BinaryTreeNode, x: int, nodes: seq<(BinaryTreeNode?, string)>, ghost models: seq<Tree>)
    returns (next: seq<(BinaryTreeNode?, string)>, ghost nextModels: seq<Tree>)
    requires root.Valid() && nodes != [] && Queued(root, x, nodes, models)
    requires nodes[0].0 == null || nodes[0].0.item != x
    ensures Queued(root, x, next, nextModels)
    ensures Weight(nextModels) < Weight(models)
      || (Weight(nextModels) == Weight(models) && |nextModels| < |models|)
  {
    var (node, p) := nodes[0];
    ghost var front := models[0];
    var children: seq<(BinaryTreeNode?, string)> := [];
    ghost var childModels: seq<Tree> := [];
    if node != null {
      children := [(node.left, p + [LeftNode]), (node.right, p + [RightNode])];
      childModels := [front.left, front.right];
      assert IsPath(p + [LeftNode]) && IsPath(p + [RightNode]);
      SubtreeSnoc(root.Model, p, LeftNode);
      SubtreeSnoc(root.Model, p, RightNode);
      assert Live(root, node.left, front.left) && Live(root, node.right, front.right);
    }
    QueueChildrenInOrder(nodes, children);
    TracksStep(root.Model, nodes, models, children, childModels);
    LiveStep(root, nodes, models, children, childModels);
    WeightStep(models, childModels);
    next, nextModels := nodes[1..] + children, models[1..] + childModels;
    if node != null {
      assert next[..|nodes| - 1] == nodes[1..];
    } else {
      assert next == nodes[1..];
    }
    PopKeepsComplete(root.Model, nodes, front, x, next);
  }

  /**
   * `breadth_first_search_tree`: take nodes off a queue in level order,
   * left before right, and give the path to the first one holding `item`,
   * `ROOT` for the root; `None` when no node holds it.  The path found is
   * a shortest one, and `get_item_from_tree` reads `item` back through it.
   */
  method BreadthFirstSearch(root: BinaryTreeNode, item: int) returns (path: Option<string>)
    requires root.Valid()
    ensures path.None? <==> item !in Preorder(root.Model)
    ensures path.Some? ==> GetItemFromTree(root, path.value) == Ok(item)
    ensures path.Some? ==> ShortestPath(root.Model, Unshown(path.value), item)
  {
    var nodes: seq<(BinaryTreeNode?, string)> := [(root, "")];
    ghost var models := [root.Model];
    assert Live(root, root, root.Model);
    while nodes != []
      invariant Queued(root, item, nodes, models)
      decreases Weight(models), |models|
    {
      var (node, p) := nodes[0];
      if node != null && node.item == item {
        assert Live(root, node, models[0]);
        assert HoldsAt(root.Model, p, item);
        FrontIsShortest(root.Model, nodes, item);
        ReadBack(root, p, item);
        ShownUnshown(p);
        HoldsAtItem(root.Model, p, item);
        return Some(Shown(p));
      }
      nodes, models := Expand(root, item, nodes, models);
    }
    NoneLeft(root.Model, item);
    return None;
  }
}
