/**
 The intrusive red-black tree of workflow/src/kernel/rbtree.c: heap nodes with child and parent
 pointers, changed in place.  A ghost path and subtree follow the cursor of each loop.
 */
module RbTree {
  import opened RedBlackTheory

  // `timeout` and `inRbtree` belong to the structure a node is embedded in: the deadline the
  // poller sorts by, and whether the node is in the poller's tree or in one of its lists.
  class RbNode {
    var parent: RbNode?
    var left: RbNode?
    var right: RbNode?
    var color: Color
    var timeout: int
    var inRbtree: bool

    constructor (timeout: int)
      ensures this.timeout == timeout && !inRbtree
    {
      parent, left, right := null, null, null;
      color := Red;
      this.timeout := timeout;
      inRbtree := false;
    }
  }

  ghost function Ptr(t: Tree<RbNode>): RbNode? {
    if t.Leaf? then null else t.n
  }

  ghost function FrameNode(p: Path<RbNode>): set<RbNode> {
    if p.Top? then {} else {p.n}
  }

  ghost function RootNode(t: Tree<RbNode>): set<RbNode> {
    if t.Leaf? then {} else {t.n}
  }

  ghost function ParentPtr(p: Path<RbNode>): RbNode? {
    if p.Top? then null else p.n
  }

  // The nodes of `t` are linked as `t` says, and its root's parent pointer is `parent`.
  ghost predicate Linked(t: Tree<RbNode>, parent: RbNode?)
    reads Nodes(t)`parent, Nodes(t)`left, Nodes(t)`right, Nodes(t)`color
  {
    t.Node? ==>
      && t.n.parent == parent && t.n.color == t.c
      && t.n.left == Ptr(t.left) && t.n.right == Ptr(t.right)
      && Linked(t.left, t.n) && Linked(t.right, t.n)
  }

  class RbRoot {
    var node: RbNode?
    ghost var tree: Tree<RbNode>

    // The nodes of `p` are linked as `p` says, with `hole` where the subtree belongs.
    ghost predicate PathLinked(p: Path<RbNode>, hole: RbNode?)
      reads this`node, PathNodes(p)`parent, PathNodes(p)`left, PathNodes(p)`right, PathNodes(p)`color
    {
      match p
      case Top => node == hole
      case OnLeft(up, n, c, r) =>
        && n.left == hole && n.right == Ptr(r) && n.parent == ParentPtr(up) && n.color == c
        && Linked(r, n) && PathLinked(up, n)
      case OnRight(up, l, n, c) =>
        && n.right == hole && n.left == Ptr(l) && n.parent == ParentPtr(up) && n.color == c
        && Linked(l, n) && PathLinked(up, n)
    }

    ghost predicate AllDistinct(p: Path<RbNode>, t: Tree<RbNode>) {
      Unique(t) && PathUnique(p) && Nodes(t) !! PathNodes(p)
    }

    // The heap holds the tree that consists of `t` at the end of `p`.
    ghost predicate Holds(p: Path<RbNode>, t: Tree<RbNode>)
      reads this`node
      reads Nodes(t)`parent, Nodes(t)`left, Nodes(t)`right, Nodes(t)`color
      reads PathNodes(p)`parent, PathNodes(p)`left, PathNodes(p)`right, PathNodes(p)`color
    {
      && AllDistinct(p, t)
      && Linked(t, ParentPtr(p)) && PathLinked(p, Ptr(t))
    }

    ghost predicate Valid()
      reads this, Nodes(tree)`parent, Nodes(tree)`left, Nodes(tree)`right, Nodes(tree)`color
    {
      RedBlack(tree) && Holds(Top, tree)
    }

    constructor ()
      ensures Valid() && Contents() == [] && Nodes(tree) == {}
    {
      node, tree := null, Leaf;
    }

    // The nodes in sort order.
    ghost function Contents(): seq<RbNode>
      reads this
    {
      InOrder(tree)
    }

    /* ---------- moving the point of view, without touching the heap ---------- */

    lemma Up(p: Path<RbNode>, t: Tree<RbNode>)
      requires Holds(p, t) && !p.Top?
      ensures Holds(p.up, Around(p, t))
      ensures Spell(p.up, Around(p, t)) == Spell(p, t)
      ensures Extent(p.up, Around(p, t)) == Extent(p, t)
    {
      StepUp(p, t);
    }

    lemma UpLeft(p: Path<RbNode>, l: Tree<RbNode>, n: RbNode, c: Color, r: Tree<RbNode>)
      requires Holds(OnLeft(p, n, c, r), l)
      ensures Holds(p, Node(l, n, c, r))
      ensures Spell(p, Node(l, n, c, r)) == Spell(OnLeft(p, n, c, r), l)
      ensures Extent(p, Node(l, n, c, r)) == Extent(OnLeft(p, n, c, r), l)
    {
      Up(OnLeft(p, n, c, r), l);
    }

    lemma UpRight(p: Path<RbNode>, l: Tree<RbNode>, n: RbNode, c: Color, r: Tree<RbNode>)
      requires Holds(OnRight(p, l, n, c), r)
      ensures Holds(p, Node(l, n, c, r))
      ensures Spell(p, Node(l, n, c, r)) == Spell(OnRight(p, l, n, c), r)
      ensures Extent(p, Node(l, n, c, r)) == Extent(OnRight(p, l, n, c), r)
    {
      Up(OnRight(p, l, n, c), r);
    }

    lemma DownLeft(p: Path<RbNode>, l: Tree<RbNode>, n: RbNode, c: Color, r: Tree<RbNode>)
      requires Holds(p, Node(l, n, c, r))
      ensures Holds(OnLeft(p, n, c, r), l)
      ensures Spell(OnLeft(p, n, c, r), l) == Spell(p, Node(l, n, c, r))
      ensures Extent(OnLeft(p, n, c, r), l) == Extent(p, Node(l, n, c, r))
    {
      StepUp(OnLeft(p, n, c, r), l);
    }

    lemma DownRight(p: Path<RbNode>, l: Tree<RbNode>, n: RbNode, c: Color, r: Tree<RbNode>)
      requires Holds(p, Node(l, n, c, r))
      ensures Holds(OnRight(p, l, n, c), r)
      ensures Spell(OnRight(p, l, n, c), r) == Spell(p, Node(l, n, c, r))
      ensures Extent(OnRight(p, l, n, c), r) == Extent(p, Node(l, n, c, r))
    {
      StepUp(OnRight(p, l, n, c), r);
    }

    // What the pointers of a focused node say.
    lemma Look(p: Path<RbNode>, l: Tree<RbNode>, n: RbNode, c: Color, r: Tree<RbNode>)
      requires Holds(p, Node(l, n, c, r))
      ensures n.left == Ptr(l) && n.right == Ptr(r) && n.parent == ParentPtr(p) && n.color == c
      ensures n in Extent(p, Node(l, n, c, r))
      ensures l.Node? ==> l.n != Ptr(r) && l.n.color == l.c && l.n.left == Ptr(l.left) && l.n.right == Ptr(l.right)
      ensures r.Node? ==> r.n != Ptr(l) && r.n.color == r.c && r.n.left == Ptr(r.left) && r.n.right == Ptr(r.right)
    {
      assert Linked(l, n) && Linked(r, n);
    }

    lemma {:induction false} RootOnPath(p: Path<RbNode>, hole: RbNode?)
      requires PathLinked(p, hole) && !p.Top?
      ensures node != null && node in PathNodes(p)
    {
      if !p.up.Top? {
        RootOnPath(p.up, p.n);
      }
    }

    // The root pointer leads to the focused subtree only when nothing is above it.
    lemma RootIsTop(p: Path<RbNode>, t: Tree<RbNode>)
      requires Holds(p, t)
      ensures p.Top? <==> node == Ptr(t)
    {
      if !p.Top? {
        RootOnPath(p, Ptr(t));
      }
    }

    lemma {:induction false} Zip(p: Path<RbNode>, t: Tree<RbNode>)
      requires Holds(p, t)
      ensures Holds(Top, Plug(p, t))
    {
      if !p.Top? {
        Up(p, t);
        Zip(p.up, Around(p, t));
      }
    }

    lemma {:induction false} Unzip(p: Path<RbNode>, outer: Path<RbNode>, t: Tree<RbNode>)
      requires Holds(outer, Plug(p, t))
      ensures Holds(Append(p, outer), t)
    {
      match p
      case Top =>
      case OnLeft(up, n, c, r) =>
        Unzip(up, outer, Node(t, n, c, r));
        DownLeft(Append(up, outer), t, n, c, r);
      case OnRight(up, l, n, c) =>
        Unzip(up, outer, Node(l, n, c, t));
        DownRight(Append(up, outer), l, n, c, t);
    }

    /* ---------- changing pointers ---------- */

    // Gives a subtree, if it is not empty, a new parent.
    static method Adopt(child: RbNode?, parent: RbNode?, ghost t: Tree<RbNode>, ghost was: RbNode?)
      requires child == Ptr(t) && Linked(t, was) && Unique(t)
      modifies RootNode(t)`parent
      ensures Linked(t, parent)
    {
      if child != null {
        assert Linked(t.left, t.n) && Linked(t.right, t.n);
        child.parent := parent;
        assert Linked(t.left, t.n) && Linked(t.right, t.n);
      }
    }

    // Makes the parent of `old`, or the root pointer if there is none, point to `new_` instead.
    method Redirect(old_: RbNode, new_: RbNode?, parent: RbNode?, ghost p: Path<RbNode>)
      requires PathUnique(p) && PathLinked(p, old_) && parent == ParentPtr(p) && old_ !in PathNodes(p)
      modifies this`node, FrameNode(p)`left, FrameNode(p)`right
      ensures PathLinked(p, new_)
    {
      if parent != null {
        assert p.OnLeft? ==> Linked(p.right, p.n) && PathLinked(p.up, p.n);
        assert p.OnRight? ==> Linked(p.left, p.n) && PathLinked(p.up, p.n) && p.n.left != old_;
        if old_ == parent.left {
          parent.left := new_;
        } else {
          parent.right := new_;
        }
      } else {
        node := new_;
      }
    }

    // The two nodes and three subtrees of a rotation, and what keeps them apart.
    ghost predicate Apart(p: Path<RbNode>, l: Tree<RbNode>, x: RbNode, m: Tree<RbNode>, y: RbNode, r: Tree<RbNode>) {
      && FrameNode(p) !! Nodes(l) && FrameNode(p) !! Nodes(m) && FrameNode(p) !! Nodes(r)
      && x !in Nodes(l) && x !in Nodes(m) && x !in Nodes(r)
      && y !in Nodes(l) && y !in Nodes(m) && y !in Nodes(r)
      && x !in PathNodes(p) && y !in PathNodes(p) && FrameNode(p) <= PathNodes(p)
      && Nodes(m) !! PathNodes(p) && Nodes(m) !! Nodes(l) && Nodes(m) !! Nodes(r) && RootNode(m) <= Nodes(m)
      && PathUnique(p) && Unique(m) && x != y
    }

    lemma RightLeaningPieces(p: Path<RbNode>, l: Tree<RbNode>, x: RbNode, cx: Color, m: Tree<RbNode>,
                             y: RbNode, cy: Color, r: Tree<RbNode>)
      requires Holds(p, RightLeaning(l, x, cx, m, y, cy, r))
      ensures Apart(p, l, x, m, y, r)
      ensures x.parent == ParentPtr(p) && x.left == Ptr(l) && x.right == y && x.color == cx
      ensures y.left == Ptr(m) && y.right == Ptr(r) && y.color == cy
      ensures Linked(l, x) && Linked(m, y) && Linked(r, y) && PathLinked(p, x)
      ensures {x, y} + FrameNode(p) + RootNode(m) <= Extent(p, RightLeaning(l, x, cx, m, y, cy, r))
      ensures var t := LeftLeaning(l, x, cx, m, y, cy, r);
        && AllDistinct(p, t) && Spell(p, t) == Spell(p, RightLeaning(l, x, cx, m, y, cy, r))
        && Extent(p, t) == Extent(p, RightLeaning(l, x, cx, m, y, cy, r))
    {
      Rotation(l, x, cx, m, y, cy, r);
      assert Linked(Node(m, y, cy, r), x) && Unique(Node(m, y, cy, r));
    }

    lemma LeftLeaningPieces(p: Path<RbNode>, l: Tree<RbNode>, x: RbNode, cx: Color, m: Tree<RbNode>,
                            y: RbNode, cy: Color, r: Tree<RbNode>)
      requires Holds(p, LeftLeaning(l, x, cx, m, y, cy, r))
      ensures Apart(p, l, x, m, y, r)
      ensures y.parent == ParentPtr(p) && y.left == x && y.right == Ptr(r) && y.color == cy
      ensures x.left == Ptr(l) && x.right == Ptr(m) && x.color == cx
      ensures Linked(l, x) && Linked(m, x) && Linked(r, y) && PathLinked(p, y)
      ensures {x, y} + FrameNode(p) + RootNode(m) <= Extent(p, LeftLeaning(l, x, cx, m, y, cy, r))
      ensures var t := RightLeaning(l, x, cx, m, y, cy, r);
        && AllDistinct(p, t) && Spell(p, t) == Spell(p, LeftLeaning(l, x, cx, m, y, cy, r))
        && Extent(p, t) == Extent(p, LeftLeaning(l, x, cx, m, y, cy, r))
    {
      Rotation(l, x, cx, m, y, cy, r);
      assert Linked(Node(l, x, cx, m), y) && Unique(Node(l, x, cx, m));
    }

    lemma LeftLeaningHolds(p: Path<RbNode>, l: Tree<RbNode>, x: RbNode, cx: Color, m: Tree<RbNode>,
                           y: RbNode, cy: Color, r: Tree<RbNode>)
      requires AllDistinct(p, LeftLeaning(l, x, cx, m, y, cy, r))
      requires y.parent == ParentPtr(p) && y.left == x && y.right == Ptr(r) && y.color == cy
      requires x.parent == y && x.left == Ptr(l) && x.right == Ptr(m) && x.color == cx
      requires Linked(l, x) && Linked(m, x) && Linked(r, y) && PathLinked(p, y)
      ensures Holds(p, LeftLeaning(l, x, cx, m, y, cy, r))
    {
      assert Linked(Node(l, x, cx, m), y);
    }

    lemma RightLeaningHolds(p: Path<RbNode>, l: Tree<RbNode>, x: RbNode, cx: Color, m: Tree<RbNode>,
                            y: RbNode, cy: Color, r: Tree<RbNode>)
      requires AllDistinct(p, RightLeaning(l, x, cx, m, y, cy, r))
      requires x.parent == ParentPtr(p) && x.left == Ptr(l) && x.right == y && x.color == cx
      requires y.parent == x && y.left == Ptr(m) && y.right == Ptr(r) && y.color == cy
      requires Linked(l, x) && Linked(m, y) && Linked(r, y) && PathLinked(p, x)
      ensures Holds(p, RightLeaning(l, x, cx, m, y, cy, r))
    {
      assert Linked(Node(m, y, cy, r), x);
    }

    method RotateLeft(x: RbNode, ghost p: Path<RbNode>, ghost l: Tree<RbNode>, ghost cx: Color,
                      ghost m: Tree<RbNode>, ghost y: RbNode, ghost cy: Color, ghost r: Tree<RbNode>)
      requires Holds(p, RightLeaning(l, x, cx, m, y, cy, r))
      modifies this`node, Extent(p, RightLeaning(l, x, cx, m, y, cy, r))`left
      modifies Extent(p, RightLeaning(l, x, cx, m, y, cy, r))`right,
        Extent(p, RightLeaning(l, x, cx, m, y, cy, r))`parent
      ensures var t := LeftLeaning(l, x, cx, m, y, cy, r);
        && Holds(p, t) && Spell(p, t) == Spell(p, RightLeaning(l, x, cx, m, y, cy, r))
        && Extent(p, t) == Extent(p, RightLeaning(l, x, cx, m, y, cy, r))
    {
      hide *;
      ghost var L, M, R, P := Nodes(l), Nodes(m), Nodes(r), PathNodes(p);
      assert allocated(L) && allocated(M) && allocated(R) && allocated(P);
      RightLeaningPieces(p, l, x, cx, m, y, cy, r);
      var right := x.right;
      x.right := right.left;
      Adopt(x.right, x, m, y);
      right.left := x;
      right.parent := x.parent;
      Redirect(x, right, right.parent, p);
      x.parent := right;
      LeftLeaningHolds(p, l, x, cx, m, y, cy, r);
    }

    method RotateRight(y: RbNode, ghost p: Path<RbNode>, ghost l: Tree<RbNode>, ghost x: RbNode, ghost cx: Color,
                       ghost m: Tree<RbNode>, ghost cy: Color, ghost r: Tree<RbNode>)
      requires Holds(p, LeftLeaning(l, x, cx, m, y, cy, r))
      modifies this`node, Extent(p, LeftLeaning(l, x, cx, m, y, cy, r))`left
      modifies Extent(p, LeftLeaning(l, x, cx, m, y, cy, r))`right, Extent(p, LeftLeaning(l, x, cx, m, y, cy, r))`parent
      ensures var t := RightLeaning(l, x, cx, m, y, cy, r);
        && Holds(p, t) && Spell(p, t) == Spell(p, LeftLeaning(l, x, cx, m, y, cy, r))
        && Extent(p, t) == Extent(p, LeftLeaning(l, x, cx, m, y, cy, r))
    {
      hide *;
      ghost var L, M, R, P := Nodes(l), Nodes(m), Nodes(r), PathNodes(p);
      assert allocated(L) && allocated(M) && allocated(R) && allocated(P);
      LeftLeaningPieces(p, l, x, cx, m, y, cy, r);
      var left := y.left;
      y.left := left.right;
      Adopt(y.left, y, m, x);
      left.right := y;
      left.parent := y.parent;
      Redirect(y, left, left.parent, p);
      y.parent := left;
      RightLeaningHolds(p, l, x, cx, m, y, cy, r);
    }

    method SetColor(x: RbNode, c: Color, ghost p: Path<RbNode>, ghost t: Tree<RbNode>)
      requires Holds(p, t) && t.Node? && t.n == x
      modifies x`color
      ensures Holds(p, t.(c := c))
      ensures Spell(p, t.(c := c)) == Spell(p, t) && Extent(p, t.(c := c)) == Extent(p, t)
    {
      ghost var P, L, R := PathNodes(p), Nodes(t.left), Nodes(t.right);
      assert Linked(t.left, x) && Linked(t.right, x);
      x.color := c;
      assert Linked(t.left, x) && Linked(t.right, x);
      assert PathLinked(p, x);
    }

    // The same for the left and the right child of the focused node.
    method SetColorLeft(x: RbNode, c: Color, ghost p: Path<RbNode>, ghost t: Tree<RbNode>)
      requires Holds(p, t) && t.Node? && t.left.Node? && t.left.n == x
      modifies x`color
      ensures var u := t.(left := t.left.(c := c));
        Holds(p, u) && Spell(p, u) == Spell(p, t) && Extent(p, u) == Extent(p, t)
    {
      hide *;
      DownLeft(p, t.left, t.n, t.c, t.right);
      SetColor(x, c, OnLeft(p, t.n, t.c, t.right), t.left);
      UpLeft(p, t.left.(c := c), t.n, t.c, t.right);
    }

    method SetColorRight(x: RbNode, c: Color, ghost p: Path<RbNode>, ghost t: Tree<RbNode>)
      requires Holds(p, t) && t.Node? && t.right.Node? && t.right.n == x
      modifies x`color
      ensures var u := t.(right := t.right.(c := c));
        Holds(p, u) && Spell(p, u) == Spell(p, t) && Extent(p, u) == Extent(p, t)
    {
      hide *;
      DownRight(p, t.left, t.n, t.c, t.right);
      SetColor(x, c, OnRight(p, t.left, t.n, t.c), t.right);
      UpRight(p, t.left, t.n, t.c, t.right.(c := c));
    }

    // What the pointers of the parent of the focused subtree say.
    lemma LookUp(p: Path<RbNode>, t: Tree<RbNode>)
      requires Holds(p, t) && t.Node?
      ensures t.n.parent == ParentPtr(p) && t.n.color == t.c && t.n in Extent(p, t)
      ensures !p.Top? ==> p.n.color == p.c && p.n.parent == ParentPtr(p.up) && p.n in Extent(p, t)
      ensures p.OnLeft? ==> p.n.left == t.n && p.n.right == Ptr(p.right) && p.n.right != t.n
      ensures p.OnRight? ==> p.n.right == t.n && p.n.left == Ptr(p.left) && p.n.left != t.n
    {
    }

    // The view from the grandparent of the focused node.
    lemma Family(p: Path<RbNode>, t: Tree<RbNode>)
      requires Holds(p, t) && t.Node? && !p.Top? && !p.up.Top?
      ensures var u := Around(p.up, Around(p, t));
        Holds(p.up.up, u) && Spell(p.up.up, u) == Spell(p, t) && Extent(p.up.up, u) == Extent(p, t)
      ensures t.n in Extent(p, t) && p.n in Extent(p, t) && p.up.n in Extent(p, t)
      ensures t.n.parent == p.n && p.n.parent == p.up.n
      ensures if p.OnLeft? then p.n.left == t.n && p.n.right != t.n else p.n.right == t.n && p.n.left != t.n
      ensures if p.up.OnLeft? then
          && p.up.n.left == p.n && p.up.n.right == Ptr(p.up.right)
          && (p.up.right.Node? ==> p.up.right.n.color == p.up.right.c && p.up.right.n in Extent(p, t))
        else
          && p.up.n.right == p.n && p.up.n.left == Ptr(p.up.left) && p.up.n.left != p.n
          && (p.up.left.Node? ==> p.up.left.n.color == p.up.left.c && p.up.left.n in Extent(p, t))
    {
      LookUp(p, t);
      Up(p, t);
      LookUp(p.up, Around(p, t));
      Up(p.up, Around(p, t));
    }

    // One round of the insertion loop, when the parent is a left child.
    method InsertRoundLeft(node0: RbNode, parent0: RbNode, gparent: RbNode,
                           ghost p0: Path<RbNode>, ghost t0: Tree<RbNode>, ghost h0: int)
      returns (next: RbNode, ghost p: Path<RbNode>, ghost t: Tree<RbNode>, ghost h: int)
      requires Holds(p0, t0) && RedAtFocus(p0, t0, h0) && RedFrame(p0) && p0.up.OnLeft?
      requires node0 == t0.n && parent0 == p0.n && gparent == p0.up.n
      modifies this`node, Extent(p0, t0)`color, Extent(p0, t0)`left, Extent(p0, t0)`right, Extent(p0, t0)`parent
      ensures Holds(p, t) && RedAtFocus(p, t, h) && t.n == next && Depth(p) < Depth(p0)
      ensures Extent(p, t) == Extent(p0, t0) && Spell(p, t) == Spell(p0, t0)
    {
      ghost var N := Extent(p0, t0);
      assert allocated(N);
      RecolorStep(p0, t0, h0);
      hide Linked, PathLinked, Holds, Nodes, PathNodes, Unique, PathUnique, AllDistinct, PathBalanced, Balanced;
      hide Spell, Extent, Before, After, InOrder, Plug, RedAtFocus;
      ghost var gg, q, U := p0.up.up, Around(p0, t0), p0.up.right;
      ghost var T := Node(q, gparent, Black, U);
      Family(p0, t0);
      var node, parent := node0, parent0;
      var uncle := gparent.right;
      if uncle != null && uncle.color == Red {
        SetColorRight(uncle, Black, gg, T);
        T := T.(right := T.right.(c := Black));
        SetColorLeft(parent, Black, gg, T);
        T := T.(left := T.left.(c := Black));
        SetColor(gparent, Red, gg, T);
        T := T.(c := Red);
        return gparent, gg, T, h0 + 1;
      }
      RotateStep(p0, t0, h0);
      if parent.right == node {
        DownLeft(gg, q, gparent, Black, U);
        RotateLeft(parent, OnLeft(gg, gparent, Black, U), q.left, Red, t0.left, node, Red, t0.right);
        q := LeftLeaning(q.left, parent, Red, t0.left, node, Red, t0.right);
        UpLeft(gg, q, gparent, Black, U);
        T := Node(q, gparent, Black, U);
        node, parent := parent, node;
      }
      SetColorLeft(parent, Black, gg, T);
      q := q.(c := Black);
      T := Node(q, gparent, Black, U);
      SetColor(gparent, Red, gg, T);
      T := Node(q, gparent, Red, U);
      RotateRight(gparent, gg, q.left, parent, Black, q.right, Red, U);
      DownLeft(gg, q.left, parent, Black, Node(q.right, gparent, Red, U));
      return node, OnLeft(gg, parent, Black, Node(q.right, gparent, Red, U)), q.left, h0;
    }

    // The mirror image: the parent is a right child.
    method InsertRoundRight(node0: RbNode, parent0: RbNode, gparent: RbNode,
                            ghost p0: Path<RbNode>, ghost t0: Tree<RbNode>, ghost h0: int)
      returns (next: RbNode, ghost p: Path<RbNode>, ghost t: Tree<RbNode>, ghost h: int)
      requires Holds(p0, t0) && RedAtFocus(p0, t0, h0) && RedFrame(p0) && p0.up.OnRight?
      requires node0 == t0.n && parent0 == p0.n && gparent == p0.up.n
      modifies this`node, Extent(p0, t0)`color, Extent(p0, t0)`left, Extent(p0, t0)`right, Extent(p0, t0)`parent
      ensures Holds(p, t) && RedAtFocus(p, t, h) && t.n == next && Depth(p) < Depth(p0)
      ensures Extent(p, t) == Extent(p0, t0) && Spell(p, t) == Spell(p0, t0)
    {
      ghost var N := Extent(p0, t0);
      assert allocated(N);
      RecolorStep(p0, t0, h0);
      hide Linked, PathLinked, Holds, Nodes, PathNodes, Unique, PathUnique, AllDistinct, PathBalanced, Balanced;
      hide Spell, Extent, Before, After, InOrder, Plug, RedAtFocus;
      ghost var gg, q, U := p0.up.up, Around(p0, t0), p0.up.left;
      ghost var T := Node(U, gparent, Black, q);
      Family(p0, t0);
      var node, parent := node0, parent0;
      var uncle := gparent.left;
      if uncle != null && uncle.color == Red {
        SetColorLeft(uncle, Black, gg, T);
        T := T.(left := T.left.(c := Black));
        SetColorRight(parent, Black, gg, T);
        T := T.(right := T.right.(c := Black));
        SetColor(gparent, Red, gg, T);
        T := T.(c := Red);
        return gparent, gg, T, h0 + 1;
      }
      RotateStep(p0, t0, h0);
      if parent.left == node {
        DownRight(gg, U, gparent, Black, q);
        RotateRight(parent, OnRight(gg, U, gparent, Black), t0.left, node, Red, t0.right, Red, q.right);
        q := RightLeaning(t0.left, node, Red, t0.right, parent, Red, q.right);
        UpRight(gg, U, gparent, Black, q);
        T := Node(U, gparent, Black, q);
        node, parent := parent, node;
      }
      SetColorRight(parent, Black, gg, T);
      q := q.(c := Black);
      T := Node(U, gparent, Black, q);
      SetColor(gparent, Red, gg, T);
      T := Node(U, gparent, Red, q);
      RotateLeft(gparent, gg, U, Red, q.left, parent, Black, q.right);
      DownRight(gg, Node(U, gparent, Red, q.left), parent, Black, q.right);
      return node, OnRight(gg, Node(U, gparent, Red, q.left), parent, Black), q.right, h0;
    }

    // Restores the red-black rules after a red leaf `x` has been linked below `p0`.
    method InsertColor(x: RbNode, ghost p0: Path<RbNode>)
      requires Holds(p0, Node(Leaf, x, Red, Leaf)) && RedAtFocus(p0, Node(Leaf, x, Red, Leaf), 0)
      modifies this
      modifies Extent(p0, Node(Leaf, x, Red, Leaf))`color, Extent(p0, Node(Leaf, x, Red, Leaf))`parent
      modifies Extent(p0, Node(Leaf, x, Red, Leaf))`left, Extent(p0, Node(Leaf, x, Red, Leaf))`right
      ensures Valid() && Contents() == Spell(p0, Node(Leaf, x, Red, Leaf))
      ensures Nodes(tree) == Extent(p0, Node(Leaf, x, Red, Leaf))
    {
      ghost var p, t, h := p0, Node(Leaf, x, Red, Leaf), 0;
      ghost var N, S := Extent(p, t), Spell(p, t);
      assert allocated(N);
      hide Linked, PathLinked, Holds, Nodes, PathNodes, Unique, PathUnique, AllDistinct, PathBalanced;
      hide Spell, Extent, Before, After, InOrder, Plug, RedBlack, RedAtFocus, Balanced, Valid;
      var node := x;
      LookUp(p, t);
      while node.parent != null && node.parent.color == Red
        invariant Holds(p, t) && RedAtFocus(p, t, h) && t.Node? && t.n == node
        invariant Extent(p, t) == N && Spell(p, t) == S
        invariant node.parent == ParentPtr(p) && (!p.Top? ==> p.n.color == p.c)
        decreases Depth(p)
      {
        var parent := node.parent;
        var gparent := parent.parent;
        RecolorStep(p, t, h);
        Family(p, t);
        assert gparent == p.up.n;
        if parent == gparent.left {
          node, p, t, h := InsertRoundLeft(node, parent, gparent, p, t, h);
        } else {
          node, p, t, h := InsertRoundRight(node, parent, gparent, p, t, h);
        }
        LookUp(p, t);
      }
      InsertFinish(p, t, h);
      BlackenRoot(p, t);
    }

    method BlackenRoot(ghost p: Path<RbNode>, ghost t: Tree<RbNode>)
      requires Holds(p, t) && t.Node? && RedBlack(Blacken(Plug(p, t)))
      modifies this`tree, Extent(p, t)`color
      ensures Valid() && tree == Blacken(Plug(p, t))
    {
      Zip(p, t);
      PlugNodes(p, t);
      PlugNode(p, t);
      ghost var T := Plug(p, t);
      RootIsTop(Top, T);
      SetColor(this.node, Black, Top, T);
      tree := T.(c := Black);
    }

    // What the pointers two levels below the focused node say.
    lemma LookLower(p: Path<RbNode>, l: Tree<RbNode>, n: RbNode, c: Color, r: Tree<RbNode>)
      requires Holds(p, Node(l, n, c, r))
      ensures l.Node? ==>
        (l.left.Node? ==> l.left.n.color == l.left.c) && (l.right.Node? ==> l.right.n.color == l.right.c)
      ensures r.Node? ==>
        (r.left.Node? ==> r.left.n.color == r.left.c) && (r.right.Node? ==> r.right.n.color == r.right.c)
      ensures l.Node? ==>
        l.n in Extent(p, Node(l, n, c, r)) && RootNode(l.left) <= Extent(p, Node(l, n, c, r))
          && RootNode(l.right) <= Extent(p, Node(l, n, c, r))
      ensures r.Node? ==>
        r.n in Extent(p, Node(l, n, c, r)) && RootNode(r.left) <= Extent(p, Node(l, n, c, r))
          && RootNode(r.right) <= Extent(p, Node(l, n, c, r))
    {
      assert Linked(l, n) && Linked(r, n);
      if l.Node? {
        assert Linked(l.left, l.n) && Linked(l.right, l.n);
        assert RootNode(l.left) <= Nodes(l.left) && RootNode(l.right) <= Nodes(l.right);
      }
      if r.Node? {
        assert Linked(r.left, r.n) && Linked(r.right, r.n);
        assert RootNode(r.left) <= Nodes(r.left) && RootNode(r.right) <= Nodes(r.right);
      }
    }

    lemma WholeTree(p: Path<RbNode>, t: Tree<RbNode>)
      requires Holds(p, t) && t.Node?
      ensures var u := Plug(p, t);
        && Holds(Top, u) && Spell(Top, u) == Spell(p, t) && Extent(Top, u) == Extent(p, t) && Ptr(u) == node && u.Node?
    {
      Zip(p, t);
      PlugInOrder(p, t);
      PlugNodes(p, t);
      PlugNode(p, t);
      SpellTop(Plug(p, t));
      RootIsTop(Top, Plug(p, t));
    }

    // A red sibling is rotated above the parent.
    method RedSiblingRight(parent: RbNode, other: RbNode, ghost up: Path<RbNode>, ghost t: Tree<RbNode>,
            ghost s: Tree<RbNode>)
      requires s.Node? && s.n == other && s.c == Red && Holds(OnLeft(up, parent, Black, s), t)
      modifies this`node, Extent(OnLeft(up, parent, Black, s), t)`color, Extent(OnLeft(up, parent, Black, s), t)`left
      modifies Extent(OnLeft(up, parent, Black, s), t)`right, Extent(OnLeft(up, parent, Black, s), t)`parent
      ensures var p := OnLeft(OnLeft(up, other, Black, s.right), parent, Red, s.left);
        && Holds(p, t) && Extent(p, t) == Extent(OnLeft(up, parent, Black, s), t)
        && Spell(p, t) == Spell(OnLeft(up, parent, Black, s), t)
    {
      ghost var N := Extent(OnLeft(up, parent, Black, s), t);
      assert allocated(N);
      UpLeft(up, t, parent, Black, s);
      Look(up, t, parent, Black, s);
      hide Linked, PathLinked, Holds, Nodes, PathNodes, Unique, PathUnique, AllDistinct, PathBalanced, Balanced;
      hide Spell, Extent, Before, After, InOrder, Plug;
      SetColorRight(other, Black, up, Node(t, parent, Black, s));
      SetColor(parent, Red, up, Node(t, parent, Black, s.(c := Black)));
      RotateLeft(parent, up, t, Red, s.left, other, Black, s.right);
      DownLeft(up, Node(t, parent, Red, s.left), other, Black, s.right);
      DownLeft(OnLeft(up, other, Black, s.right), t, parent, Red, s.left);
    }

    // A red nephew on the near side only is rotated above the sibling.
    method NearNephewRight(other: RbNode, ghost up: Path<RbNode>, ghost t: Tree<RbNode>, ghost parent: RbNode,
            ghost c: Color, ghost s: Tree<RbNode>)
      requires s.Node? && s.n == other && s.c == Black && s.left.Node? && s.left.c == Red
        && Holds(OnLeft(up, parent, c, s), t)
      modifies this`node, Extent(OnLeft(up, parent, c, s), t)`color, Extent(OnLeft(up, parent, c, s), t)`left
      modifies Extent(OnLeft(up, parent, c, s), t)`right, Extent(OnLeft(up, parent, c, s), t)`parent
      ensures var p :=
        OnLeft(up, parent, c, RightLeaning(s.left.left, s.left.n, Black, s.left.right, other, Red, s.right));
        && Holds(p, t) && Extent(p, t) == Extent(OnLeft(up, parent, c, s), t)
        && Spell(p, t) == Spell(OnLeft(up, parent, c, s), t)
    {
      ghost var N := Extent(OnLeft(up, parent, c, s), t);
      assert allocated(N);
      ghost var q := OnRight(up, t, parent, c);
      UpLeft(up, t, parent, c, s);
      DownRight(up, t, parent, c, s);
      Look(q, s.left, other, Black, s.right);
      LookLower(q, s.left, other, Black, s.right);
      hide Linked, PathLinked, Holds, Nodes, PathNodes, Unique, PathUnique, AllDistinct, PathBalanced, Balanced;
      hide Spell, Extent, Before, After, InOrder, Plug;
      var oLeft := other.left;
      if oLeft != null {
        SetColorLeft(oLeft, Black, q, s);
      }
      SetColor(other, Red, q, s.(left := s.left.(c := Black)));
      ghost var u := RightLeaning(s.left.left, s.left.n, Black, s.left.right, other, Red, s.right);
      RotateRight(other, q, s.left.left, s.left.n, Black, s.left.right, Red, s.right);
      UpRight(up, t, parent, c, u);
      DownLeft(up, t, parent, c, u);
    }

    // A red nephew on the far side ends the loop.
    method FarNephewRight(parent: RbNode, other: RbNode, ghost up: Path<RbNode>, ghost t: Tree<RbNode>,
            ghost c: Color, ghost s: Tree<RbNode>)
      requires s.Node? && s.n == other && s.c == Black && s.right.Node? && Holds(OnLeft(up, parent, c, s), t)
      modifies this`node, Extent(OnLeft(up, parent, c, s), t)`color, Extent(OnLeft(up, parent, c, s), t)`left
      modifies Extent(OnLeft(up, parent, c, s), t)`right, Extent(OnLeft(up, parent, c, s), t)`parent
      ensures var u := LeftLeaning(t, parent, Black, s.left, other, c, Blacken(s.right));
        && Holds(up, u) && Extent(up, u) == Extent(OnLeft(up, parent, c, s), t)
        && Spell(up, u) == Spell(OnLeft(up, parent, c, s), t)
    {
      ghost var N := Extent(OnLeft(up, parent, c, s), t);
      assert allocated(N);
      UpLeft(up, t, parent, c, s);
      Look(up, t, parent, c, s);
      LookLower(up, t, parent, c, s);
      hide Linked, PathLinked, Holds, Nodes, PathNodes, Unique, PathUnique, AllDistinct, PathBalanced, Balanced;
      hide Spell, Extent, Before, After, InOrder, Plug;
      SetColorRight(other, parent.color, up, Node(t, parent, c, s));
      ghost var s1 := s.(c := c);
      SetColor(parent, Black, up, Node(t, parent, c, s1));
      DownRight(up, t, parent, Black, s1);
      if other.right != null {
        SetColorRight(other.right, Black, OnRight(up, t, parent, Black), s1);
      }
      UpRight(up, t, parent, Black, s1.(right := Blacken(s.right)));
      RotateLeft(parent, up, t, Black, s.left, other, c, Blacken(s.right));
    }

    // With a red nephew on either side the loop ends.
    method PayFromRight(parent: RbNode, other0: RbNode, ghost up: Path<RbNode>, ghost t: Tree<RbNode>,
            ghost c: Color, ghost s0: Tree<RbNode>, ghost h: int)
      returns (ghost u: Tree<RbNode>)
      requires Holds(OnLeft(up, parent, c, s0), t) && Deficit(OnLeft(up, parent, c, s0), t, h) && Blackish(t)
      requires s0.Node? && s0.n == other0 && s0.c == Black && !(Blackish(s0.left) && Blackish(s0.right))
      modifies this`node, Extent(OnLeft(up, parent, c, s0), t)`color, Extent(OnLeft(up, parent, c, s0), t)`left
      modifies Extent(OnLeft(up, parent, c, s0), t)`right, Extent(OnLeft(up, parent, c, s0), t)`parent
      ensures Holds(Top, u) && RedBlack(u) && node == Ptr(u)
      ensures Spell(Top, u) == Spell(OnLeft(up, parent, c, s0), t)
      ensures Extent(Top, u) == Extent(OnLeft(up, parent, c, s0), t)
    {
      ghost var N := Extent(OnLeft(up, parent, c, s0), t);
      assert allocated(N);
      hide Linked, PathLinked, Holds, Nodes, PathNodes, Unique, PathUnique, AllDistinct, PathBalanced, Balanced;
      hide Spell, Extent, Before, After, InOrder, Plug, Deficit, RedBlack;
      var other := other0;
      ghost var s := s0;
      SiblingOnRight(up, t, parent, c, s, h);
      UpLeft(up, t, parent, c, s);
      LookLower(up, t, parent, c, s);
      Look(up, t, parent, c, s);
      if other.right == null || other.right.color == Black {
        NearNephewRight(other, up, t, parent, c, s);
        s := RightLeaning(s.left.left, s.left.n, Black, s.left.right, other, Red, s.right);
        UpLeft(up, t, parent, c, s);
        Look(up, t, parent, c, s);
        other := parent.right;
      }
      PaidFromRight(up, t, parent, c, s, h);
      FarNephewRight(parent, other, up, t, c, s);
      u := LeftLeaning(t, parent, Black, s.left, other, c, Blacken(s.right));
      WholeTree(up, u);
      u := Plug(up, u);
    }

    // One round of the removal loop, when the short subtree is a left child.
    method EraseRoundLeft(node0: RbNode?, parent0: RbNode, ghost p0: Path<RbNode>, ghost t0: Tree<RbNode>,
            ghost h0: int)
      returns (next: RbNode?, parent: RbNode?, done: bool, ghost p: Path<RbNode>, ghost t: Tree<RbNode>, ghost h: int)
      requires Holds(p0, t0) && Deficit(p0, t0, h0) && Blackish(t0) && p0.OnLeft?
      requires node0 == Ptr(t0) && parent0 == p0.n
      modifies this`node, Extent(p0, t0)`color, Extent(p0, t0)`left, Extent(p0, t0)`right, Extent(p0, t0)`parent
      ensures Holds(p, t) && Deficit(p, t, h) && next == Ptr(t)
      ensures Extent(p, t) == Extent(p0, t0) && Spell(p, t) == Spell(p0, t0)
      ensures done ==> p.Top? && Blackish(t)
      ensures !done ==> parent == ParentPtr(p) && (!Blackish(t) || Depth(p) < Depth(p0))
    {
      ghost var N := Extent(p0, t0);
      assert allocated(N);
      next, parent, done, p, t, h := node0, parent0, false, p0, t0, h0;
      ghost var up, c, s := p0.up, p0.c, p0.right;
      SiblingOnRight(up, t0, parent0, c, s, h0);
      UpLeft(up, t0, parent0, c, s);
      Look(up, t0, parent0, c, s);
      hide Linked, PathLinked, Holds, Nodes, PathNodes, Unique, PathUnique, AllDistinct, PathBalanced, Balanced;
      hide Spell, Extent, Before, After, InOrder, Plug, Deficit;
      var other := parent0.right;
      if other.color == Red {
        RedSiblingRight(parent0, other, up, t0, s);
        up, c, s := OnLeft(up, other, Black, s.right), Red, s.left;
        SiblingOnRight(up, t0, parent0, c, s, h0);
        UpLeft(up, t0, parent0, c, s);
        Look(up, t0, parent0, c, s);
        other := parent0.right;
      }
      LookLower(up, t0, parent0, c, s);
      if (other.left == null || other.left.color == Black) && (other.right == null || other.right.color == Black) {
        SetColorRight(other, Red, up, Node(t0, parent0, c, s));
        next, p, t := parent0, up, Node(t0, parent0, c, s.(c := Red));
        h := if c == Red then h0 else h0 + 1;
        LookUp(p, t);
        parent := parent0.parent;
      } else {
        t := PayFromRight(parent0, other, up, t0, c, s, h0);
        next, done, p, h := this.node, true, Top, BlackHeight(t);
        Whole(t);
      }
    }

    // The mirror images: the short subtree is a right child.
    method RedSiblingLeft(parent: RbNode, other: RbNode, ghost up: Path<RbNode>, ghost t: Tree<RbNode>,
            ghost s: Tree<RbNode>)
      requires s.Node? && s.n == other && s.c == Red && Holds(OnRight(up, s, parent, Black), t)
      modifies this`node, Extent(OnRight(up, s, parent, Black), t)`color, Extent(OnRight(up, s, parent, Black), t)`right
      modifies Extent(OnRight(up, s, parent, Black), t)`left, Extent(OnRight(up, s, parent, Black), t)`parent
      ensures var p := OnRight(OnRight(up, s.left, other, Black), s.right, parent, Red);
        && Holds(p, t) && Extent(p, t) == Extent(OnRight(up, s, parent, Black), t)
        && Spell(p, t) == Spell(OnRight(up, s, parent, Black), t)
    {
      ghost var N := Extent(OnRight(up, s, parent, Black), t);
      assert allocated(N);
      UpRight(up, s, parent, Black, t);
      Look(up, s, parent, Black, t);
      hide Linked, PathLinked, Holds, Nodes, PathNodes, Unique, PathUnique, AllDistinct, PathBalanced, Balanced;
      hide Spell, Extent, Before, After, InOrder, Plug;
      SetColorLeft(other, Black, up, Node(s, parent, Black, t));
      SetColor(parent, Red, up, Node(s.(c := Black), parent, Black, t));
      RotateRight(parent, up, s.left, other, Black, s.right, Red, t);
      DownRight(up, s.left, other, Black, Node(s.right, parent, Red, t));
      DownRight(OnRight(up, s.left, other, Black), s.right, parent, Red, t);
    }

    method NearNephewLeft(other: RbNode, ghost up: Path<RbNode>, ghost t: Tree<RbNode>, ghost parent: RbNode,
            ghost c: Color, ghost s: Tree<RbNode>)
      requires s.Node? && s.n == other && s.c == Black && s.right.Node? && s.right.c == Red
        && Holds(OnRight(up, s, parent, c), t)
      modifies this`node, Extent(OnRight(up, s, parent, c), t)`color, Extent(OnRight(up, s, parent, c), t)`right
      modifies Extent(OnRight(up, s, parent, c), t)`left, Extent(OnRight(up, s, parent, c), t)`parent
      ensures var p :=
        OnRight(up, LeftLeaning(s.left, other, Red, s.right.left, s.right.n, Black, s.right.right), parent, c);
        && Holds(p, t) && Extent(p, t) == Extent(OnRight(up, s, parent, c), t)
        && Spell(p, t) == Spell(OnRight(up, s, parent, c), t)
    {
      ghost var N := Extent(OnRight(up, s, parent, c), t);
      assert allocated(N);
      ghost var q := OnLeft(up, parent, c, t);
      UpRight(up, s, parent, c, t);
      DownLeft(up, s, parent, c, t);
      Look(q, s.left, other, Black, s.right);
      LookLower(q, s.left, other, Black, s.right);
      hide Linked, PathLinked, Holds, Nodes, PathNodes, Unique, PathUnique, AllDistinct, PathBalanced, Balanced;
      hide Spell, Extent, Before, After, InOrder, Plug;
      var oRight := other.right;
      if oRight != null {
        SetColorRight(oRight, Black, q, s);
      }
      SetColor(other, Red, q, s.(right := s.right.(c := Black)));
      ghost var u := LeftLeaning(s.left, other, Red, s.right.left, s.right.n, Black, s.right.right);
      RotateLeft(other, q, s.left, Red, s.right.left, s.right.n, Black, s.right.right);
      UpLeft(up, u, parent, c, t);
      DownRight(up, u, parent, c, t);
    }

    method FarNephewLeft(parent: RbNode, other: RbNode, ghost up: Path<RbNode>, ghost t: Tree<RbNode>,
            ghost c: Color, ghost s: Tree<RbNode>)
      requires s.Node? && s.n == other && s.c == Black && s.left.Node? && Holds(OnRight(up, s, parent, c), t)
      modifies this`node, Extent(OnRight(up, s, parent, c), t)`color, Extent(OnRight(up, s, parent, c), t)`right
      modifies Extent(OnRight(up, s, parent, c), t)`left, Extent(OnRight(up, s, parent, c), t)`parent
      ensures var u := RightLeaning(Blacken(s.left), other, c, s.right, parent, Black, t);
        && Holds(up, u) && Extent(up, u) == Extent(OnRight(up, s, parent, c), t)
        && Spell(up, u) == Spell(OnRight(up, s, parent, c), t)
    {
      ghost var N := Extent(OnRight(up, s, parent, c), t);
      assert allocated(N);
      UpRight(up, s, parent, c, t);
      Look(up, s, parent, c, t);
      LookLower(up, s, parent, c, t);
      hide Linked, PathLinked, Holds, Nodes, PathNodes, Unique, PathUnique, AllDistinct, PathBalanced, Balanced;
      hide Spell, Extent, Before, After, InOrder, Plug;
      SetColorLeft(other, parent.color, up, Node(s, parent, c, t));
      ghost var s1 := s.(c := c);
      SetColor(parent, Black, up, Node(s1, parent, c, t));
      DownLeft(up, s1, parent, Black, t);
      if other.left != null {
        SetColorLeft(other.left, Black, OnLeft(up, parent, Black, t), s1);
      }
      UpLeft(up, s1.(left := Blacken(s.left)), parent, Black, t);
      RotateRight(parent, up, Blacken(s.left), other, c, s.right, Black, t);
    }

    method PayFromLeft(parent: RbNode, other0: RbNode, ghost up: Path<RbNode>, ghost t: Tree<RbNode>, ghost c: Color,
            ghost s0: Tree<RbNode>, ghost h: int)
      returns (ghost u: Tree<RbNode>)
      requires Holds(OnRight(up, s0, parent, c), t) && Deficit(OnRight(up, s0, parent, c), t, h) && Blackish(t)
      requires s0.Node? && s0.n == other0 && s0.c == Black && !(Blackish(s0.right) && Blackish(s0.left))
      modifies this`node, Extent(OnRight(up, s0, parent, c), t)`color, Extent(OnRight(up, s0, parent, c), t)`right
      modifies Extent(OnRight(up, s0, parent, c), t)`left, Extent(OnRight(up, s0, parent, c), t)`parent
      ensures Holds(Top, u) && RedBlack(u) && node == Ptr(u)
      ensures Spell(Top, u) == Spell(OnRight(up, s0, parent, c), t)
      ensures Extent(Top, u) == Extent(OnRight(up, s0, parent, c), t)
    {
      ghost var N := Extent(OnRight(up, s0, parent, c), t);
      assert allocated(N);
      hide Linked, PathLinked, Holds, Nodes, PathNodes, Unique, PathUnique, AllDistinct, PathBalanced, Balanced;
      hide Spell, Extent, Before, After, InOrder, Plug, Deficit, RedBlack;
      var other := other0;
      ghost var s := s0;
      SiblingOnLeft(up, s, parent, c, t, h);
      UpRight(up, s, parent, c, t);
      LookLower(up, s, parent, c, t);
      Look(up, s, parent, c, t);
      if other.left == null || other.left.color == Black {
        NearNephewLeft(other, up, t, parent, c, s);
        s := LeftLeaning(s.left, other, Red, s.right.left, s.right.n, Black, s.right.right);
        UpRight(up, s, parent, c, t);
        Look(up, s, parent, c, t);
        other := parent.left;
      }
      PaidFromLeft(up, s, parent, c, t, h);
      FarNephewLeft(parent, other, up, t, c, s);
      u := RightLeaning(Blacken(s.left), other, c, s.right, parent, Black, t);
      WholeTree(up, u);
      u := Plug(up, u);
    }

    method EraseRoundRight(node0: RbNode?, parent0: RbNode, ghost p0: Path<RbNode>, ghost t0: Tree<RbNode>,
            ghost h0: int)
      returns (next: RbNode?, parent: RbNode?, done: bool, ghost p: Path<RbNode>, ghost t: Tree<RbNode>, ghost h: int)
      requires Holds(p0, t0) && Deficit(p0, t0, h0) && Blackish(t0) && p0.OnRight?
      requires node0 == Ptr(t0) && parent0 == p0.n
      modifies this`node, Extent(p0, t0)`color, Extent(p0, t0)`right, Extent(p0, t0)`left, Extent(p0, t0)`parent
      ensures Holds(p, t) && Deficit(p, t, h) && next == Ptr(t)
      ensures Extent(p, t) == Extent(p0, t0) && Spell(p, t) == Spell(p0, t0)
      ensures done ==> p.Top? && Blackish(t)
      ensures !done ==> parent == ParentPtr(p) && (!Blackish(t) || Depth(p) < Depth(p0))
    {
      ghost var N := Extent(p0, t0);
      assert allocated(N);
      next, parent, done, p, t, h := node0, parent0, false, p0, t0, h0;
      ghost var up, c, s := p0.up, p0.c, p0.left;
      SiblingOnLeft(up, s, parent0, c, t0, h0);
      UpRight(up, s, parent0, c, t0);
      Look(up, s, parent0, c, t0);
      hide Linked, PathLinked, Holds, Nodes, PathNodes, Unique, PathUnique, AllDistinct, PathBalanced, Balanced;
      hide Spell, Extent, Before, After, InOrder, Plug, Deficit;
      var other := parent0.left;
      if other.color == Red {
        RedSiblingLeft(parent0, other, up, t0, s);
        up, c, s := OnRight(up, s.left, other, Black), Red, s.right;
        SiblingOnLeft(up, s, parent0, c, t0, h0);
        UpRight(up, s, parent0, c, t0);
        Look(up, s, parent0, c, t0);
        other := parent0.left;
      }
      LookLower(up, s, parent0, c, t0);
      if (other.right == null || other.right.color == Black) && (other.left == null || other.left.color == Black) {
        SetColorLeft(other, Red, up, Node(s, parent0, c, t0));
        next, p, t := parent0, up, Node(s.(c := Red), parent0, c, t0);
        h := if c == Red then h0 else h0 + 1;
        LookUp(p, t);
        parent := parent0.parent;
      } else {
        t := PayFromLeft(parent0, other, up, t0, c, s, h0);
        next, done, p, h := this.node, true, Top, BlackHeight(t);
        Whole(t);
      }
    }

    // Which child of its parent the focused subtree is, seen through the pointers.
    lemma WhichChild(p: Path<RbNode>, t: Tree<RbNode>)
      requires Holds(p, t) && !p.Top?
      ensures p.n == ParentPtr(p)
      ensures p.OnLeft? ==> p.n.left == Ptr(t)
      ensures p.OnRight? && p.left.Node? ==> p.n.left != Ptr(t)
    {
    }

    lemma FocusColor(p: Path<RbNode>, t: Tree<RbNode>)
      requires Holds(p, t)
      ensures t.Node? ==> t.n.color == t.c && t.n in Extent(p, t)
    {
    }

    method EraseRound(node0: RbNode?, parent0: RbNode, ghost p0: Path<RbNode>, ghost t0: Tree<RbNode>, ghost h0: int)
      returns (next: RbNode?, parent: RbNode?, done: bool, ghost p: Path<RbNode>, ghost t: Tree<RbNode>, ghost h: int)
      requires Holds(p0, t0) && Deficit(p0, t0, h0) && Blackish(t0) && !p0.Top?
      requires node0 == Ptr(t0) && parent0 == p0.n
      modifies this`node, Extent(p0, t0)`color, Extent(p0, t0)`left, Extent(p0, t0)`right, Extent(p0, t0)`parent
      ensures Holds(p, t) && Deficit(p, t, h) && next == Ptr(t)
      ensures Extent(p, t) == Extent(p0, t0) && Spell(p, t) == Spell(p0, t0)
      ensures done ==> p.Top? && Blackish(t)
      ensures !done ==> parent == ParentPtr(p) && (!Blackish(t) || Depth(p) < Depth(p0))
      ensures (p.Top? <==> next == node) && (t.Node? ==> next.color == t.c && next in Extent(p, t))
    {
      hide Linked, PathLinked, Holds, Nodes, PathNodes, Unique, PathUnique, AllDistinct, PathBalanced;
      hide Spell, Extent, Deficit, NearlyBalanced, Balanced;
      WhichChild(p0, t0);
      if p0.OnLeft? {
        SiblingOnRight(p0.up, t0, p0.n, p0.c, p0.right, h0);
      } else {
        SiblingOnLeft(p0.up, p0.left, p0.n, p0.c, t0, h0);
      }
      if parent0.left == node0 {
        next, parent, done, p, t, h := EraseRoundLeft(node0, parent0, p0, t0, h0);
      } else {
        next, parent, done, p, t, h := EraseRoundRight(node0, parent0, p0, t0, h0);
      }
      FocusColor(p, t);
      RootIsTop(p, t);
    }

    // Restores the red-black rules when the subtree `t0` at the end of `p0` is one black node short.
    method EraseColor(node0: RbNode?, parent0: RbNode?, ghost p0: Path<RbNode>, ghost t0: Tree<RbNode>, ghost h0: int)
      requires Holds(p0, t0) && Deficit(p0, t0, h0) && node0 == Ptr(t0) && parent0 == ParentPtr(p0)
      modifies this, Extent(p0, t0)`color, Extent(p0, t0)`left, Extent(p0, t0)`right, Extent(p0, t0)`parent
      ensures Valid() && Contents() == Spell(p0, t0) && Nodes(tree) == Extent(p0, t0)
    {
      ghost var p, t, h := p0, t0, h0;
      ghost var N, S := Extent(p, t), Spell(p, t);
      assert allocated(N);
      hide Linked, PathLinked, Holds, Nodes, PathNodes, Unique, PathUnique, AllDistinct, PathBalanced;
      hide Spell, Extent, Before, After, InOrder, Plug, RedBlack, Deficit, NearlyBalanced, Balanced, Valid, Contents;
      var node, parent := node0, parent0;
      FocusColor(p, t);
      RootIsTop(p, t);
      while (node == null || node.color == Black) && node != this.node
        invariant Holds(p, t) && Deficit(p, t, h) && node == Ptr(t)
        invariant parent == ParentPtr(p)
        invariant t.Node? ==> node.color == t.c && node in Extent(p, t)
        invariant p.Top? <==> node == this.node
        invariant Extent(p, t) == N && Spell(p, t) == S
        decreases if Blackish(t) then 1 else 0, Depth(p)
      {
        var done;
        node, parent, done, p, t, h := EraseRound(node, parent, p, t, h);
        if done {
          break;
        }
      }
      EraseFinish(p, t, h);
      if node != null {
        SetColor(node, Black, p, t);
      }
      Settle(p, Blacken(t));
    }

    // The whole tree is as it should be again.
    ghost method Settle(p: Path<RbNode>, t: Tree<RbNode>)
      requires Holds(p, t) && RedBlack(Plug(p, t))
      modifies this`tree
      ensures Valid() && Contents() == Spell(p, t) && Nodes(tree) == Extent(p, t)
    {
      Zip(p, t);
      PlugInOrder(p, t);
      PlugNodes(p, t);
      tree := Plug(p, t);
    }

    /* ---------- linking and unlinking nodes ---------- */

    // Puts `x` where an empty subtree was, and paints it red.
    method LinkNode(x: RbNode, parent: RbNode?, onLeft: bool, ghost p: Path<RbNode>)
      requires Holds(p, Leaf) && x !in PathNodes(p)
      requires parent == ParentPtr(p) && (parent != null ==> onLeft == p.OnLeft?)
      modifies this`node, x`parent, x`left, x`right, x`color
      modifies FrameNode(p)`left, FrameNode(p)`right
      ensures Holds(p, Node(Leaf, x, Red, Leaf))
    {
      ghost var P := PathNodes(p);
      x.parent := parent;
      x.color := Red;
      x.left, x.right := null, null;
      assert PathLinked(p, null);
      PointHole(x, parent, onLeft, p);
    }

    method PointHole(x: RbNode?, parent: RbNode?, onLeft: bool, ghost p: Path<RbNode>)
      requires PathUnique(p) && exists hole :: PathLinked(p, hole)
      requires parent == ParentPtr(p) && (parent != null ==> onLeft == p.OnLeft?)
      modifies this`node, FrameNode(p)`left, FrameNode(p)`right
      ensures PathLinked(p, x)
    {
      if parent == null {
        node := x;
      } else if onLeft {
        assert Linked(p.right, p.n) && PathLinked(p.up, p.n);
        parent.left := x;
      } else {
        assert Linked(p.left, p.n) && PathLinked(p.up, p.n);
        parent.right := x;
      }
    }

    // Takes out a focused node that has at most one child subtree, `child`.
    method Unlink(x: RbNode, child: RbNode?, ghost p: Path<RbNode>, ghost t: Tree<RbNode>, ghost u: Tree<RbNode>)
      requires Holds(p, t) && t.Node? && t.n == x && child == Ptr(u)
      requires (t.left == Leaf && u == t.right) || (t.right == Leaf && u == t.left)
      modifies this`node, RootNode(u)`parent, FrameNode(p)`left, FrameNode(p)`right
      ensures Holds(p, u) && x !in Extent(p, u) && Extent(p, u) + {x} == Extent(p, t)
    {
      ghost var P, U := PathNodes(p), Nodes(u);
      assert allocated(P) && allocated(U);
      assert Linked(u, x) && Unique(u) && PathLinked(p, x);
      assert U !! P && x !in U && x !in P && RootNode(u) <= U && FrameNode(p) <= P;
      var parent := x.parent;
      Adopt(child, parent, u, x);
      Redirect(x, child, parent, p);
    }

    // Puts `y` in the place of the focused node `x`.
    method Replace(x: RbNode, y: RbNode, ghost p: Path<RbNode>, ghost l: Tree<RbNode>, ghost c: Color,
            ghost r: Tree<RbNode>)
      requires Holds(p, Node(l, x, c, r)) && l.Node? && y !in Extent(p, Node(l, x, c, r))
      modifies this`node, y`parent, y`left, y`right, y`color
      modifies FrameNode(p)`left, FrameNode(p)`right, RootNode(l)`parent, RootNode(r)`parent
      ensures Holds(p, Node(l, y, c, r)) && x !in Extent(p, Node(l, y, c, r))
    {
      hide *;
      ghost var P, L, R := PathNodes(p), Nodes(l), Nodes(r);
      assert allocated(P) && allocated(L) && allocated(R);
      ReplacePieces(p, l, x, y, c, r);
      y.parent := x.parent;
      y.color := x.color;
      y.right := x.right;
      y.left := x.left;
      Redirect(x, y, x.parent, p);
      Adopt(x.left, y, l, x);
      Adopt(x.right, y, r, x);
      ReplaceHolds(p, l, x, y, c, r);
    }

    lemma ReplacePieces(p: Path<RbNode>, l: Tree<RbNode>, x: RbNode, y: RbNode, c: Color, r: Tree<RbNode>)
      requires Holds(p, Node(l, x, c, r)) && y !in Extent(p, Node(l, x, c, r))
      ensures Linked(l, x) && Linked(r, x) && PathLinked(p, x) && AllDistinct(p, Node(l, x, c, r))
      ensures Nodes(l) !! PathNodes(p) && Nodes(r) !! PathNodes(p) && Nodes(l) !! Nodes(r)
      ensures RootNode(l) <= Nodes(l) && RootNode(r) <= Nodes(r) && FrameNode(p) <= PathNodes(p)
      ensures x !in Nodes(l) && x !in Nodes(r) && x !in PathNodes(p) && x != y
      ensures y !in Nodes(l) && y !in Nodes(r) && y !in PathNodes(p)
      ensures Unique(l) && Unique(r) && PathUnique(p)
      ensures x.parent == ParentPtr(p) && x.left == Ptr(l) && x.right == Ptr(r) && x.color == c
    {
    }

    lemma ReplaceHolds(p: Path<RbNode>, l: Tree<RbNode>, x: RbNode, y: RbNode, c: Color, r: Tree<RbNode>)
      requires AllDistinct(p, Node(l, x, c, r)) && x != y && y !in Extent(p, Node(l, x, c, r))
      requires Linked(l, y) && Linked(r, y) && PathLinked(p, y)
      requires y.parent == ParentPtr(p) && y.left == Ptr(l) && y.right == Ptr(r) && y.color == c
      ensures Holds(p, Node(l, y, c, r)) && x !in Extent(p, Node(l, y, c, r))
    {
    }

    lemma {:induction false} ZipTo(s: Path<RbNode>, outer: Path<RbNode>, t: Tree<RbNode>)
      requires Holds(Append(s, outer), t)
      ensures Holds(outer, Plug(s, t))
      ensures Extent(outer, Plug(s, t)) == Extent(Append(s, outer), t)
    {
      if !s.Top? {
        Up(Append(s, outer), t);
        ZipTo(s.up, outer, Around(s, t));
      }
    }

    lemma {:induction false} UnzipExtent(s: Path<RbNode>, outer: Path<RbNode>, t: Tree<RbNode>)
      requires Holds(outer, Plug(s, t))
      ensures Holds(Append(s, outer), t)
      ensures Extent(Append(s, outer), t) == Extent(outer, Plug(s, t))
    {
      Unzip(s, outer, t);
      ZipTo(s, outer, t);
    }

    // The left-most node of a subtree.
    method FirstBelow(top: RbNode, ghost outer: Path<RbNode>, ghost t: Tree<RbNode>)
      returns (first: RbNode, ghost s: Path<RbNode>, ghost c: Color, ghost r: Tree<RbNode>)
      requires Holds(outer, t) && t.Node? && t.n == top
      ensures AllOnLeft(s) && Holds(Append(s, outer), Node(Leaf, first, c, r))
      ensures Plug(Append(s, outer), Node(Leaf, first, c, r)) == Plug(outer, t)
      ensures Spell(Append(s, outer), Node(Leaf, first, c, r)) == Spell(outer, t)
      ensures Extent(Append(s, outer), Node(Leaf, first, c, r)) == Extent(outer, t)
    {
      first, s := top, Top;
      ghost var u := t;
      while first.left != null
        invariant AllOnLeft(s) && Holds(Append(s, outer), u) && u.Node? && u.n == first
        invariant Plug(Append(s, outer), u) == Plug(outer, t)
        invariant Spell(Append(s, outer), u) == Spell(outer, t)
        invariant Extent(Append(s, outer), u) == Extent(outer, t)
        decreases u
      {
        ghost var q := Append(s, outer);
        DownLeft(q, u.left, u.n, u.c, u.right);
        s, u := OnLeft(s, u.n, u.c, u.right), u.left;
        first := first.left;
      }
      c, r := u.c, u.right;
    }

    // Takes `x` out of the tree.
    method Erase(x: RbNode)
      requires Valid() && x in Nodes(tree)
      modifies this, Nodes(tree)`color, Nodes(tree)`left, Nodes(tree)`right, Nodes(tree)`parent
      ensures Valid() && Removes(old(Contents()), x, Contents())
      ensures Nodes(tree) == old(Nodes(tree)) - {x}
    {
      ghost var T, N := tree, Nodes(tree);
      assert allocated(N);
      ghost var (p0, t0) := FocusPath(Top, T, x);
      Unzip(p0, Top, t0);
      PlugInOrder(p0, t0);
      PlugNodes(p0, t0);
      AppendTop(p0);
      if x.left == null || x.right == null {
        EraseOneChild(x, p0, t0);
      } else {
        EraseTwoChildren(x, p0, t0.left, t0.c, t0.right);
      }
    }

    method EraseOneChild(x: RbNode, ghost p: Path<RbNode>, ghost t: Tree<RbNode>)
      requires Holds(p, t) && t.Node? && t.n == x && RedBlack(Plug(p, t))
      requires x.left == null || x.right == null
      modifies this, Extent(p, t)`color, Extent(p, t)`left, Extent(p, t)`right, Extent(p, t)`parent
      ensures Valid() && Removes(Spell(p, t), x, Contents()) && Nodes(tree) == Extent(p, t) - {x}
    {
      LookUp(p, t);
      Look(p, t.left, x, t.c, t.right);
      var child, parent, color;
      ghost var u;
      if x.left == null {
        child, u := x.right, t.right;
      } else {
        child, u := x.left, t.left;
      }
      parent, color := x.parent, x.color;
      UnlinkStep(p, t, u);
      UnlinkSpell(p, t, u);
      hide *;
      Unlink(x, child, p, t, u);
      if color == Black {
        EraseColor(child, parent, p, u, BlackHeight(u));
      } else {
        Settle(p, u);
      }
    }

    method EraseTwoChildren(x: RbNode, ghost p: Path<RbNode>, ghost l: Tree<RbNode>, ghost c: Color,
            ghost r: Tree<RbNode>)
      requires Holds(p, Node(l, x, c, r)) && RedBlack(Plug(p, Node(l, x, c, r)))
      requires l.Node? && r.Node?
      modifies this, Extent(p, Node(l, x, c, r))`color, Extent(p, Node(l, x, c, r))`left
      modifies Extent(p, Node(l, x, c, r))`right, Extent(p, Node(l, x, c, r))`parent
      ensures Valid() && Removes(Spell(p, Node(l, x, c, r)), x, Contents())
      ensures Nodes(tree) == Extent(p, Node(l, x, c, r)) - {x}
    {
      ghost var N := Extent(p, Node(l, x, c, r));
      assert allocated(N);
      hide *;
      ghost var s, u;
      var y, child, parent, color;
      y, child, parent, color, s, u := UnlinkSuccessor(x, p, l, c, r);
      ghost var q := Append(s, OnRight(p, l, y, c));
      if parent == x {
        parent := y;
      }
      PromoteSuccessor(x, y, s, p, l, c, u);
      if color == Black {
        EraseColor(child, parent, q, u, BlackHeight(u));
      } else {
        Settle(q, u);
      }
    }

    // Takes out the node after `x`, the first one of its right subtree.
    method UnlinkSuccessor(x: RbNode, ghost p: Path<RbNode>, ghost l: Tree<RbNode>, ghost c: Color,
            ghost r: Tree<RbNode>)
      returns (y: RbNode, child: RbNode?, parent: RbNode?, color: Color, ghost s: Path<RbNode>, ghost u: Tree<RbNode>)
      requires Holds(p, Node(l, x, c, r)) && RedBlack(Plug(p, Node(l, x, c, r))) && r.Node?
      modifies this`node, Extent(p, Node(l, x, c, r))`parent, Extent(p, Node(l, x, c, r))`left,
        Extent(p, Node(l, x, c, r))`right
      ensures Holds(Append(s, OnRight(p, l, x, c)), u) && child == Ptr(u)
      ensures parent == ParentPtr(Append(s, OnRight(p, l, x, c)))
      ensures x in Extent(p, Node(l, x, c, r)) && y in Extent(p, Node(l, x, c, r))
      ensures y !in Extent(Append(s, OnRight(p, l, x, c)), u)
      ensures Extent(Append(s, OnRight(p, l, x, c)), u) + {y} == Extent(p, Node(l, x, c, r))
      ensures var q := Append(s, OnRight(p, l, y, c));
        && Removes(Spell(p, Node(l, x, c, r)), x, Spell(q, u))
        && (if color == Black then Deficit(q, u, BlackHeight(u)) else RedBlack(Plug(q, u)))
        && (parent == x ==> ParentPtr(q) == y) && (parent != x ==> ParentPtr(q) == parent)
    {
      ghost var N := Extent(p, Node(l, x, c, r));
      assert allocated(N);
      Look(p, l, x, c, r);
      DownRight(p, l, x, c, r);
      hide Linked, PathLinked, Holds, Nodes, PathNodes, Unique, PathUnique, AllDistinct, Spell, Extent, Plug;
      ghost var outer, cy := OnRight(p, l, x, c), Red;
      y, s, cy, u := FirstBelow(x.right, outer, r);
      ghost var was, t := Append(s, outer), Node(Leaf, y, cy, u);
      Look(was, Leaf, y, cy, u);
      SuccessorStep(s, p, l, x, c, y, cy, u);
      SuccessorSpell(s, p, l, x, c, y, cy, u);
      SuccessorParent(s, p, l, x, y, c, t);
      hide *;
      child, parent, color := y.right, y.parent, y.color;
      Unlink(y, child, was, t, u);
    }

    lemma {:induction false} OuterOnPath(s: Path<RbNode>, outer: Path<RbNode>)
      ensures PathNodes(outer) <= PathNodes(Append(s, outer))
    {
      if !s.Top? {
        OuterOnPath(s.up, outer);
      }
    }

    lemma SuccessorParent(s: Path<RbNode>, p: Path<RbNode>, l: Tree<RbNode>, x: RbNode, y: RbNode, c: Color,
            t: Tree<RbNode>)
      requires Holds(Append(s, OnRight(p, l, x, c)), t)
      ensures x in Extent(Append(s, OnRight(p, l, x, c)), t)
      ensures if ParentPtr(Append(s, OnRight(p, l, x, c))) == x then ParentPtr(Append(s, OnRight(p, l, y, c))) == y
        else ParentPtr(Append(s, OnRight(p, l, y, c))) == ParentPtr(Append(s, OnRight(p, l, x, c)))
    {
      var outer := OnRight(p, l, x, c);
      OuterOnPath(s, outer);
      if !s.Top? {
        OuterOnPath(s.up, outer);
      }
    }

    // The detached successor `y` of `x` takes the place of `x`.
    method PromoteSuccessor(x: RbNode, y: RbNode, ghost s: Path<RbNode>, ghost p: Path<RbNode>, ghost l: Tree<RbNode>,
                            ghost c: Color, ghost u: Tree<RbNode>)
      requires Holds(Append(s, OnRight(p, l, x, c)), u) && l.Node?
      requires y !in Extent(Append(s, OnRight(p, l, x, c)), u)
      modifies this`node, y`parent, y`left, y`right, y`color
      modifies Extent(Append(s, OnRight(p, l, x, c)), u)`parent
      modifies Extent(Append(s, OnRight(p, l, x, c)), u)`left, Extent(Append(s, OnRight(p, l, x, c)), u)`right
      ensures Holds(Append(s, OnRight(p, l, y, c)), u)
      ensures Extent(Append(s, OnRight(p, l, y, c)), u) == Extent(Append(s, OnRight(p, l, x, c)), u) - {x} + {y}
    {
      ghost var N, r := Extent(Append(s, OnRight(p, l, x, c)), u), Plug(s, u);
      assert allocated(N);
      ZipTo(s, OnRight(p, l, x, c), u);
      UpRight(p, l, x, c, r);
      Renaming(p, l, x, y, c, r);
      hide *;
      Replace(x, y, p, l, c, r);
      DownRight(p, l, y, c, r);
      UnzipExtent(s, OnRight(p, l, y, c), u);
    }

    lemma Renaming(p: Path<RbNode>, l: Tree<RbNode>, x: RbNode, y: RbNode, c: Color, r: Tree<RbNode>)
      requires Holds(p, Node(l, x, c, r)) && y !in Extent(p, Node(l, x, c, r))
      ensures var e := Extent(p, Node(l, x, c, r));
        && Extent(p, Node(l, y, c, r)) == e - {x} + {y}
        && FrameNode(p) <= e && RootNode(l) <= e && RootNode(r) <= e
    {
      assert RootNode(l) <= Nodes(l) && RootNode(r) <= Nodes(r);
    }

    /* ---------- walking ---------- */

    method LastBelow(top: RbNode, ghost outer: Path<RbNode>, ghost t: Tree<RbNode>)
      returns (last: RbNode, ghost s: Path<RbNode>, ghost l: Tree<RbNode>, ghost c: Color)
      requires Holds(outer, t) && t.Node? && t.n == top
      ensures AllOnRight(s) && Holds(Append(s, outer), Node(l, last, c, Leaf))
      ensures Spell(Append(s, outer), Node(l, last, c, Leaf)) == Spell(outer, t)
      ensures Extent(Append(s, outer), Node(l, last, c, Leaf)) == Extent(outer, t)
    {
      last, s := top, Top;
      ghost var u := t;
      while last.right != null
        invariant AllOnRight(s) && Holds(Append(s, outer), u) && u.Node? && u.n == last
        invariant Spell(Append(s, outer), u) == Spell(outer, t)
        invariant Extent(Append(s, outer), u) == Extent(outer, t)
        decreases u
      {
        ghost var q := Append(s, outer);
        DownRight(q, u.left, u.n, u.c, u.right);
        s, u := OnRight(s, u.left, u.n, u.c), u.right;
        last := last.right;
      }
      l, c := u.left, u.c;
    }

    // Points the view of the whole tree at `x`.
    lemma Focus(x: RbNode) returns (p: Path<RbNode>, t: Tree<RbNode>)
      requires Valid() && x in Nodes(tree)
      ensures Holds(p, t) && t.Node? && t.n == x && RedBlack(Plug(p, t))
      ensures Spell(p, t) == Contents() && Extent(p, t) == Nodes(tree) && Plug(p, t) == tree
    {
      var f := FocusPath(Top, tree, x);
      p, t := f.0, f.1;
      Unzip(p, Top, t);
      AppendTop(p);
      PlugInOrder(p, t);
      PlugNodes(p, t);
    }

    method Next(x: RbNode) returns (r: RbNode?)
      requires Valid() && x in Nodes(tree)
      ensures NextIs(Contents(), x, if r == null then [] else [r])
      ensures r != null ==> r in Nodes(tree)
    {
      ghost var p, t := Focus(x);
      Look(p, t.left, x, t.c, t.right);
      hide Linked, PathLinked, Holds, Nodes, PathNodes, Unique, PathUnique, AllDistinct, Spell, Extent, Plug, Valid,
        InOrder, Before, After;
      if x.right != null {
        DownRight(p, t.left, x, t.c, t.right);
        ghost var s, c, u;
        var first: RbNode;
        first, s, c, u := FirstBelow(x.right, OnRight(p, t.left, x, t.c), t.right);
        NextBelow(s, p, t.left, x, t.c, first, c, u);
        FocusColor(Append(s, OnRight(p, t.left, x, t.c)), Node(Leaf, first, c, u));
        return first;
      }
      r := ClimbFromRight(x, p, t);
    }

    // The first ancestor that has `x` on its left.
    method ClimbFromRight(x: RbNode, ghost p0: Path<RbNode>, ghost t0: Tree<RbNode>) returns (r: RbNode?)
      requires Holds(p0, t0) && t0.Node? && t0.n == x && t0.right == Leaf
      ensures NextIs(Spell(p0, t0), x, if r == null then [] else [r])
      ensures r != null ==> r in Extent(p0, t0)
    {
      var node := x;
      ghost var p, t, a := p0, t0, Before(p0) + InOrder(t0.left);
      ghost var S, N := Spell(p, t), Extent(p, t);
      assert Before(p) + InOrder(t) == a + [x] by {
        assert InOrder(t.left) + [x] + [] == InOrder(t.left) + [x];
        Assoc(Before(p), InOrder(t.left), [x]);
      }
      LookUp(p, t);
      hide Linked, PathLinked, Holds, Nodes, PathNodes, Unique, PathUnique, AllDistinct, Spell, Extent, InOrder,
        Before, After;
      while node.parent != null && node == node.parent.right
        invariant Holds(p, t) && t.Node? && t.n == node
        invariant Before(p) + InOrder(t) == a + [x] && Spell(p, t) == S && Extent(p, t) == N
        invariant node.parent == ParentPtr(p) && (!p.Top? ==> p.n in N)
        invariant p.OnRight? <==> p != Top && node == node.parent.right
        decreases p
      {
        ClimbRight(p, t);
        Up(p, t);
        node := node.parent;
        t := Around(p, t);
        p := p.up;
        LookUp(p, t);
      }
      SpellIs(p, t);
      AfterIs(p);
      ghost var c := After(p);
      assert if node.parent == null then c == [] else c != [] && c[0] == node.parent;
      NeighboursInMiddle(a, x, c, S);
      hide NextIs, PrevIs;
      r := node.parent;
      ghost var at: seq<RbNode> := if r == null then [] else [r];
      assert at == if c == [] then [] else [c[0]];
    }

    method Prev(x: RbNode) returns (r: RbNode?)
      requires Valid() && x in Nodes(tree)
      ensures PrevIs(Contents(), x, if r == null then [] else [r])
      ensures r != null ==> r in Nodes(tree)
    {
      ghost var p, t := Focus(x);
      Look(p, t.left, x, t.c, t.right);
      hide Linked, PathLinked, Holds, Nodes, PathNodes, Unique, PathUnique, AllDistinct, Spell, Extent, Plug, Valid,
        InOrder, Before, After;
      if x.left != null {
        DownLeft(p, t.left, x, t.c, t.right);
        ghost var s, u, c;
        var last: RbNode;
        last, s, u, c := LastBelow(x.left, OnLeft(p, x, t.c, t.right), t.left);
        PrevBelow(s, p, x, t.c, t.right, u, last, c);
        FocusColor(Append(s, OnLeft(p, x, t.c, t.right)), Node(u, last, c, Leaf));
        return last;
      }
      r := ClimbFromLeft(x, p, t);
    }

    method ClimbFromLeft(x: RbNode, ghost p0: Path<RbNode>, ghost t0: Tree<RbNode>) returns (r: RbNode?)
      requires Holds(p0, t0) && t0.Node? && t0.n == x && t0.left == Leaf
      ensures PrevIs(Spell(p0, t0), x, if r == null then [] else [r])
      ensures r != null ==> r in Extent(p0, t0)
    {
      var node := x;
      ghost var p, t, b := p0, t0, InOrder(t0.right) + After(p0);
      ghost var S, N := Spell(p, t), Extent(p, t);
      assert InOrder(t) + After(p) == [x] + b by {
        assert [] + [x] == [x];
        Assoc([x], InOrder(t.right), After(p));
      }
      LookUp(p, t);
      hide Linked, PathLinked, Holds, Nodes, PathNodes, Unique, PathUnique, AllDistinct, Spell, Extent, InOrder,
        Before, After;
      while node.parent != null && node == node.parent.left
        invariant Holds(p, t) && t.Node? && t.n == node
        invariant InOrder(t) + After(p) == [x] + b && Spell(p, t) == S && Extent(p, t) == N
        invariant node.parent == ParentPtr(p) && (!p.Top? ==> p.n in N)
        invariant p.OnLeft? <==> p != Top && node == node.parent.left
        decreases p
      {
        ClimbLeft(p, t);
        Up(p, t);
        node := node.parent;
        t := Around(p, t);
        p := p.up;
        LookUp(p, t);
      }
      assert S == Before(p) + [x] + b by {
        SpellIs(p, t);
        Assoc(Before(p), InOrder(t), After(p));
        Assoc(Before(p), [x], b);
      }
      BeforeIs(p);
      ghost var c := Before(p);
      assert if node.parent == null then c == [] else c != [] && c[|c| - 1] == node.parent;
      NeighboursInMiddle(c, x, b, S);
      hide NextIs, PrevIs;
      r := node.parent;
      ghost var at: seq<RbNode> := if r == null then [] else [r];
      assert at == if c == [] then [] else [c[|c| - 1]];
    }

    // Links `x` at an empty place and restores the rules: the pair of calls every insertion makes.
    method Insert(x: RbNode, parent: RbNode?, onLeft: bool, ghost p: Path<RbNode>)
      requires Holds(p, Leaf) && RedBlack(Plug(p, Leaf)) && x !in PathNodes(p)
      requires parent == ParentPtr(p) && (parent != null ==> onLeft == p.OnLeft?)
      modifies this, x`parent, x`left, x`right, x`color
      modifies PathNodes(p)`color, PathNodes(p)`left, PathNodes(p)`right, PathNodes(p)`parent
      ensures Valid() && Contents() == Before(p) + [x] + After(p) && Nodes(tree) == PathNodes(p) + {x}
    {
      ghost var P := PathNodes(p);
      assert allocated(P) && FrameNode(p) <= P;
      RedLeaf(p, x);
      hide *;
      LinkNode(x, parent, onLeft, p);
      InsertColor(x, p);
    }
  }
}
