/**
 The shapes behind the intrusive red-black tree: trees, and paths from a subtree up to the
 root ("zippers").  A fix-up loop that walks upwards through parent pointers is a walk along
 such a path.  Everything in this module is about values; `RbTree` ties it to the pointers.
 */
module RedBlackTheory {

  datatype Color = Red | Black

  datatype Tree<T> =
    | Leaf
    | Node(left: Tree<T>, n: T, c: Color, right: Tree<T>)

  // What surrounds a subtree, from its parent up to the root.  `Below` on the left (right)
  // means that the subtree is the left (right) child of `n`.
  datatype Path<T> =
    | Top
    | OnLeft(up: Path<T>, n: T, c: Color, right: Tree<T>)
    | OnRight(up: Path<T>, left: Tree<T>, n: T, c: Color)

  /* ---------- sequences and sets of nodes ---------- */

  ghost function InOrder<T>(t: Tree<T>): seq<T> {
    match t
    case Leaf => []
    case Node(l, n, _, r) => InOrder(l) + [n] + InOrder(r)
  }

  ghost function Before<T>(p: Path<T>): seq<T> {
    match p
    case Top => []
    case OnLeft(up, _, _, _) => Before(up)
    case OnRight(up, l, n, _) => Before(up) + InOrder(l) + [n]
  }

  ghost function After<T>(p: Path<T>): seq<T> {
    match p
    case Top => []
    case OnLeft(up, n, _, r) => [n] + InOrder(r) + After(up)
    case OnRight(up, _, _, _) => After(up)
  }

  ghost function Nodes<T>(t: Tree<T>): set<T> {
    match t
    case Leaf => {}
    case Node(l, n, _, r) => Nodes(l) + {n} + Nodes(r)
  }

  ghost function PathNodes<T>(p: Path<T>): set<T> {
    match p
    case Top => {}
    case OnLeft(up, n, _, r) => PathNodes(up) + {n} + Nodes(r)
    case OnRight(up, l, n, _) => PathNodes(up) + {n} + Nodes(l)
  }

  // No node occurs twice.
  ghost predicate Unique<T>(t: Tree<T>) {
    t.Node? ==>
      && t.n !in Nodes(t.left) && t.n !in Nodes(t.right)
      && Nodes(t.left) !! Nodes(t.right)
      && Unique(t.left) && Unique(t.right)
  }

  ghost predicate PathUnique<T>(p: Path<T>) {
    match p
    case Top => true
    case OnLeft(up, n, _, r) =>
      && n !in PathNodes(up) && n !in Nodes(r) && Nodes(r) !! PathNodes(up)
      && Unique(r) && PathUnique(up)
    case OnRight(up, l, n, _) =>
      && n !in PathNodes(up) && n !in Nodes(l) && Nodes(l) !! PathNodes(up)
      && Unique(l) && PathUnique(up)
  }

  ghost function Plug<T>(p: Path<T>, t: Tree<T>): Tree<T> {
    match p
    case Top => t
    case OnLeft(up, n, c, r) => Plug(up, Node(t, n, c, r))
    case OnRight(up, l, n, c) => Plug(up, Node(l, n, c, t))
  }

  // `inner` continued by `outer`.
  ghost function Append<T>(inner: Path<T>, outer: Path<T>): Path<T> {
    match inner
    case Top => outer
    case OnLeft(up, n, c, r) => OnLeft(Append(up, outer), n, c, r)
    case OnRight(up, l, n, c) => OnRight(Append(up, outer), l, n, c)
  }

  lemma {:induction false} AppendTop<T>(p: Path<T>)
    ensures Append(p, Top) == p
  {
    if !p.Top? { AppendTop(p.up); }
  }

  ghost function Depth<T>(p: Path<T>): nat {
    match p
    case Top => 0
    case OnLeft(up, _, _, _) => 1 + Depth(up)
    case OnRight(up, _, _, _) => 1 + Depth(up)
  }

  // The in-order sequence, and the nodes, of `t` at the end of `p`.
  ghost function Spell<T>(p: Path<T>, t: Tree<T>): seq<T> {
    Before(p) + InOrder(t) + After(p)
  }

  ghost function Extent<T>(p: Path<T>, t: Tree<T>): set<T> {
    PathNodes(p) + Nodes(t)
  }

  lemma SpellTop<T>(t: Tree<T>)
    ensures Spell(Top, t) == InOrder(t) && Extent(Top, t) == Nodes(t)
  {
    assert [] + InOrder(t) + [] == InOrder(t);
  }

  // One step up: the subtree at the end of `p.up`.
  ghost function Around<T>(p: Path<T>, t: Tree<T>): Tree<T>
    requires !p.Top?
  {
    match p
    case OnLeft(_, n, c, r) => Node(t, n, c, r)
    case OnRight(_, l, n, c) => Node(l, n, c, t)
  }

  lemma StepUp<T>(p: Path<T>, t: Tree<T>)
    requires !p.Top?
    ensures Spell(p.up, Around(p, t)) == Spell(p, t)
    ensures Extent(p.up, Around(p, t)) == Extent(p, t)
  {
    match p
    case OnLeft(up, n, c, r) => Regroup(Before(up), InOrder(t), [n], InOrder(r), After(up));
    case OnRight(up, l, n, c) => Regroup(Before(up), InOrder(l), [n], InOrder(t), After(up));
  }

  lemma {:induction false} PlugInOrder<T>(p: Path<T>, t: Tree<T>)
    ensures InOrder(Plug(p, t)) == Spell(p, t)
  {
    if p.Top? {
      assert [] + InOrder(t) + [] == InOrder(t);
    } else {
      PlugInOrder(p.up, Around(p, t));
      StepUp(p, t);
    }
  }

  lemma Regroup<T>(a: seq<T>, b: seq<T>, c: seq<T>, d: seq<T>, e: seq<T>)
    ensures a + (b + c + d) + e == a + b + (c + d + e)
    ensures a + (b + c + d) + e == (a + b + c) + d + e
  {
  }

  lemma {:induction false} PlugNodes<T>(p: Path<T>, t: Tree<T>)
    ensures Nodes(Plug(p, t)) == Extent(p, t)
    ensures Unique(Plug(p, t)) <==> PathUnique(p) && Unique(t) && PathNodes(p) !! Nodes(t)
  {
    match p
    case Top =>
    case OnLeft(up, n, c, r) => PlugNodes(up, Node(t, n, c, r));
    case OnRight(up, l, n, c) => PlugNodes(up, Node(l, n, c, t));
  }

  // The tree with `y` at the root and `x` as its left child, or the other way round.
  ghost function LeftLeaning<T>(l: Tree<T>, x: T, cx: Color, m: Tree<T>, y: T, cy: Color, r: Tree<T>): Tree<T> {
    Node(Node(l, x, cx, m), y, cy, r)
  }

  ghost function RightLeaning<T>(l: Tree<T>, x: T, cx: Color, m: Tree<T>, y: T, cy: Color, r: Tree<T>): Tree<T> {
    Node(l, x, cx, Node(m, y, cy, r))
  }

  lemma Rotation<T>(l: Tree<T>, x: T, cx: Color, m: Tree<T>, y: T, cy: Color, r: Tree<T>)
    ensures var a, b := LeftLeaning(l, x, cx, m, y, cy, r), RightLeaning(l, x, cx, m, y, cy, r);
      InOrder(a) == InOrder(b) && Nodes(a) == Nodes(b) && (Unique(a) <==> Unique(b))
  {
    var L, M, R := InOrder(l), InOrder(m), InOrder(r);
    assert L + [x] + M + [y] + R == L + [x] + (M + [y] + R);
  }

  lemma {:induction false} PlugAppend<T>(inner: Path<T>, outer: Path<T>, t: Tree<T>)
    ensures Plug(Append(inner, outer), t) == Plug(outer, Plug(inner, t))
  {
    match inner
    case Top =>
    case OnLeft(up, n, c, r) => PlugAppend(up, outer, Node(t, n, c, r));
    case OnRight(up, l, n, c) => PlugAppend(up, outer, Node(l, n, c, t));
  }

  // Every node of a tree is the root of a subtree, reached by some path.
  ghost function FocusPath<T>(p: Path<T>, t: Tree<T>, x: T): (r: (Path<T>, Tree<T>))
    requires x in Nodes(t)
    ensures Plug(r.0, r.1) == Plug(p, t)
    ensures r.1.Node? && r.1.n == x
    decreases t
  {
    if t.n == x then (p, t)
    else if x in Nodes(t.left) then FocusPath(OnLeft(p, t.n, t.c, t.right), t.left, x)
    else FocusPath(OnRight(p, t.left, t.n, t.c), t.right, x)
  }

  lemma {:induction false} InOrderNodes<T>(t: Tree<T>)
    ensures forall x :: x in InOrder(t) <==> x in Nodes(t)
    ensures forall k :: 0 <= k < |InOrder(t)| ==> InOrder(t)[k] in Nodes(t)
  {
    if t.Node? {
      InOrderNodes(t.left);
      InOrderNodes(t.right);
    }
  }

  ghost predicate NoDuplicates<T>(s: seq<T>) {
    forall i, j :: 0 <= i < j < |s| ==> s[i] != s[j]
  }

  lemma {:induction false} UniqueInOrder<T>(t: Tree<T>)
    requires Unique(t)
    ensures NoDuplicates(InOrder(t))
  {
    if t.Node? {
      UniqueInOrder(t.left);
      UniqueInOrder(t.right);
      InOrderNodes(t.left);
      InOrderNodes(t.right);
      var a, b, s := InOrder(t.left), InOrder(t.right), InOrder(t);
      assert s == a + [t.n] + b;
      assert forall k :: 0 <= k < |a| ==> s[k] == a[k] && a[k] in Nodes(t.left);
      assert forall k :: |a| < k < |s| ==> s[k] == b[k - |a| - 1] && b[k - |a| - 1] in Nodes(t.right);
    }
  }

  /* ---------- colours and black heights ---------- */

  predicate Blackish<T>(t: Tree<T>) {
    t.Leaf? || t.c == Black
  }

  // Every way down from `t` to a leaf passes `h` black nodes, and no red node has a red child.
  ghost predicate Balanced<T>(t: Tree<T>, h: int) {
    match t
    case Leaf => h == 0
    case Node(l, _, Red, r) => Blackish(l) && Blackish(r) && Balanced(l, h) && Balanced(r, h)
    case Node(l, _, Black, r) => h > 0 && Balanced(l, h - 1) && Balanced(r, h - 1)
  }

  function Blacken<T>(t: Tree<T>): Tree<T> {
    if t.Leaf? then Leaf else t.(c := Black)
  }

  // Like `Balanced`, except that a red root may have red children.
  ghost predicate NearlyBalanced<T>(t: Tree<T>, h: int) {
    match t
    case Node(l, _, Red, r) => Balanced(l, h) && Balanced(r, h)
    case _ => Balanced(t, h)
  }

  // Putting a subtree of black height `h` at the end of `p` gives a balanced tree with a black
  // root, if the subtree's root is not red below a red parent.
  ghost predicate PathBalanced<T>(p: Path<T>, h: int) {
    match p
    case Top => h >= 0
    case OnLeft(up, _, c, r) =>
      && Balanced(r, h)
      && (if c == Red then Blackish(r) && BlackFrame(up) && PathBalanced(up, h)
          else PathBalanced(up, h + 1))
    case OnRight(up, l, _, c) =>
      && Balanced(l, h)
      && (if c == Red then Blackish(l) && BlackFrame(up) && PathBalanced(up, h)
          else PathBalanced(up, h + 1))
  }

  // The parent exists and is black.
  predicate BlackFrame<T>(p: Path<T>) {
    !p.Top? && p.c == Black
  }

  predicate RedFrame<T>(p: Path<T>) {
    !p.Top? && p.c == Red
  }

  ghost function BlackHeight<T>(t: Tree<T>): nat {
    match t
    case Leaf => 0
    case Node(l, _, c, _) => BlackHeight(l) + (if c == Black then 1 else 0)
  }

  // The red-black rules for a whole tree.
  ghost predicate RedBlack<T>(t: Tree<T>) {
    Blackish(t) && Balanced(t, BlackHeight(t))
  }

  lemma {:induction false} BalancedHeight<T>(t: Tree<T>, h: int)
    requires Balanced(t, h)
    ensures h == BlackHeight(t)
  {
    match t
    case Leaf =>
    case Node(l, _, Red, r) => BalancedHeight(l, h);
    case Node(l, _, Black, r) => BalancedHeight(l, h - 1);
  }

  lemma {:induction false} PlugRedBlack<T>(p: Path<T>, t: Tree<T>, h: int)
    requires Balanced(t, h) && PathBalanced(p, h)
    requires Blackish(t) || BlackFrame(p)
    ensures RedBlack(Plug(p, t))
  {
    match p
    case Top => BalancedHeight(t, h);
    case OnLeft(up, n, c, r) =>
      PlugRedBlack(up, Node(t, n, c, r), if c == Red then h else h + 1);
    case OnRight(up, l, n, c) =>
      PlugRedBlack(up, Node(l, n, c, t), if c == Red then h else h + 1);
  }

  lemma {:induction false} UnplugRedBlack<T>(p: Path<T>, t: Tree<T>) returns (h: int)
    requires RedBlack(Plug(p, t))
    ensures Balanced(t, h) && PathBalanced(p, h)
    ensures Blackish(t) || BlackFrame(p)
  {
    match p
    case Top =>
      h := BlackHeight(t);
    case OnLeft(up, n, c, r) =>
      h := UnplugRedBlack(up, Node(t, n, c, r));
      if c == Black { h := h - 1; }
    case OnRight(up, l, n, c) =>
      h := UnplugRedBlack(up, Node(l, n, c, t));
      if c == Black { h := h - 1; }
  }

  /* ---------- the steps of the fix-up after an insertion ---------- */

  // Everything is in order, except that the red root of `t` may have a red parent.
  ghost predicate RedAtFocus<T>(p: Path<T>, t: Tree<T>, h: int) {
    t.Node? && t.c == Red && Balanced(t, h) && PathBalanced(p, h)
  }

  // Linking a red leaf breaks nothing else.
  lemma RedLeaf<T>(p: Path<T>, x: T)
    requires RedBlack(Plug(p, Leaf))
    ensures var t := Node(Leaf, x, Red, Leaf);
      RedAtFocus(p, t, 0) && Spell(p, t) == Before(p) + [x] + After(p) && Extent(p, t) == PathNodes(p) + {x}
  {
    var h := UnplugRedBlack(p, Leaf);
    var t := Node(Leaf, x, Red, Leaf);
    assert InOrder(t) == [x] && Nodes(t) == {x};
  }

  lemma RecolorStep<T>(p: Path<T>, t: Tree<T>, h: int)
    requires RedAtFocus(p, t, h) && RedFrame(p)
    ensures BlackFrame(p.up)
    ensures p.up.OnLeft? && !Blackish(p.up.right) ==>
      RedAtFocus(p.up.up, Node(Blacken(Around(p, t)), p.up.n, Red, Blacken(p.up.right)), h + 1)
    ensures p.up.OnRight? && !Blackish(p.up.left) ==>
      RedAtFocus(p.up.up, Node(Blacken(p.up.left), p.up.n, Red, Blacken(Around(p, t))), h + 1)
  {
    assert PathBalanced(p.up, h) && PathBalanced(p.up.up, h + 1);
    match p.up
    case OnLeft(_, _, _, u) => assert Balanced(u, h);
    case OnRight(_, u, _, _) => assert Balanced(u, h);
  }

  lemma RotateStep<T>(p: Path<T>, t: Tree<T>, h: int)
    requires RedAtFocus(p, t, h) && RedFrame(p)
    requires p.up.OnLeft? ==> Blackish(p.up.right)
    requires p.up.OnRight? ==> Blackish(p.up.left)
    ensures p.OnLeft? && p.up.OnLeft? ==>
      RedAtFocus(OnLeft(p.up.up, p.n, Black, Node(p.right, p.up.n, Red, p.up.right)), t, h)
    ensures p.OnRight? && p.up.OnLeft? ==>
      RedAtFocus(OnLeft(p.up.up, t.n, Black, Node(t.right, p.up.n, Red, p.up.right)), Node(p.left, p.n, Red, t.left), h)
    ensures p.OnRight? && p.up.OnRight? ==>
      RedAtFocus(OnRight(p.up.up, Node(p.up.left, p.up.n, Red, p.left), p.n, Black), t, h)
    ensures p.OnLeft? && p.up.OnRight? ==>
      RedAtFocus(OnRight(p.up.up, Node(p.up.left, p.up.n, Red, t.left), t.n, Black),
        Node(t.right, p.n, Red, p.right), h)
  {
    assert PathBalanced(p.up, h) && PathBalanced(p.up.up, h + 1);
    match p.up
    case OnLeft(_, _, _, u) => assert Balanced(u, h);
    case OnRight(_, u, _, _) => assert Balanced(u, h);
  }

  lemma {:induction false} PlugNode<T>(p: Path<T>, t: Tree<T>)
    requires t.Node?
    ensures Plug(p, t).Node?
  {
    if !p.Top? {
      PlugNode(p.up, Around(p, t));
    }
  }

  lemma InsertFinish<T>(p: Path<T>, t: Tree<T>, h: int)
    requires RedAtFocus(p, t, h) && !RedFrame(p)
    ensures RedBlack(Blacken(Plug(p, t))) && InOrder(Blacken(Plug(p, t))) == Spell(p, t)
    ensures Plug(p, t).Node? && Nodes(Blacken(Plug(p, t))) == Extent(p, t)
  {
    PlugNodes(p, t);
    PlugNode(p, t);
    PlugInOrder(p, t);
    if p.Top? {
      BalancedHeight(Blacken(t), h + 1);
    } else {
      PlugRedBlack(p, t, h);
    }
  }

  /* ---------- the steps of the fix-up after a removal ---------- */

  // The subtree at the end of `p` is one black node short; its root may be red with red children.
  ghost predicate Deficit<T>(p: Path<T>, t: Tree<T>, h: int) {
    h >= 0 && NearlyBalanced(t, h) && PathBalanced(p, h + 1)
  }

  lemma {:induction false} NeedsSibling<T>(t: Tree<T>, h: int)
    requires Balanced(t, h)
    ensures h >= 0 && (h > 0 ==> t.Node?)
  {
    BalancedHeight(t, h);
  }

  lemma SiblingOnRight<T>(up: Path<T>, t: Tree<T>, n: T, c: Color, s: Tree<T>, h: int)
    requires Deficit(OnLeft(up, n, c, s), t, h) && Blackish(t)
    ensures s.Node?
    ensures s.c == Red ==>
      && c == Black && s.left.Node? && s.left.c == Black
      && Deficit(OnLeft(OnLeft(up, s.n, Black, s.right), n, Red, s.left), t, h)
    ensures s.c == Black && Blackish(s.left) && Blackish(s.right) ==>
      Deficit(up, Node(t, n, c, s.(c := Red)), if c == Red then h else h + 1)
    ensures s.c == Black && !Blackish(s.left) && Blackish(s.right) ==>
      Deficit(OnLeft(up, n, c, RightLeaning(s.left.left, s.left.n, Black, s.left.right, s.n, Red, s.right)), t, h)
  {
    NeedsSibling(s, h + 1);
    if s.c == Red { NeedsSibling(s.left, h + 1); }
    assert Balanced(t, h);
    assert s.c == Black ==> Balanced(s.left, h) && Balanced(s.right, h);
    if s.c == Black && !Blackish(s.left) {
      assert Balanced(s.left.left, h) && Balanced(s.left.right, h);
      assert Balanced(Node(s.left.right, s.n, Red, s.right), h) || !Blackish(s.right);
    }
  }

  lemma SiblingOnLeft<T>(up: Path<T>, s: Tree<T>, n: T, c: Color, t: Tree<T>, h: int)
    requires Deficit(OnRight(up, s, n, c), t, h) && Blackish(t)
    ensures s.Node?
    ensures s.c == Red ==>
      && c == Black && s.right.Node? && s.right.c == Black
      && Deficit(OnRight(OnRight(up, s.left, s.n, Black), s.right, n, Red), t, h)
    ensures s.c == Black && Blackish(s.right) && Blackish(s.left) ==>
      Deficit(up, Node(s.(c := Red), n, c, t), if c == Red then h else h + 1)
    ensures s.c == Black && !Blackish(s.right) && Blackish(s.left) ==>
      Deficit(OnRight(up, LeftLeaning(s.left, s.n, Red, s.right.left, s.right.n, Black, s.right.right), n, c), t, h)
  {
    NeedsSibling(s, h + 1);
    if s.c == Red { NeedsSibling(s.right, h + 1); }
    assert Balanced(t, h);
    assert s.c == Black ==> Balanced(s.left, h) && Balanced(s.right, h);
    if s.c == Black && !Blackish(s.right) {
      assert Balanced(s.right.left, h) && Balanced(s.right.right, h);
      assert Balanced(Node(s.left, s.n, Red, s.right.left), h) || !Blackish(s.left);
    }
  }

  // A red nephew on the far side pays for the missing black node.
  lemma PaidFromRight<T>(up: Path<T>, t: Tree<T>, n: T, c: Color, s: Tree<T>, h: int)
    requires Deficit(OnLeft(up, n, c, s), t, h) && Blackish(t)
    requires s.Node? && s.c == Black && !Blackish(s.right)
    ensures RedBlack(Plug(up, LeftLeaning(t, n, Black, s.left, s.n, c, Blacken(s.right))))
  {
    assert Balanced(s.left, h) && Balanced(s.right, h);
    assert Balanced(Node(t, n, Black, s.left), h + 1) && Balanced(Blacken(s.right), h + 1);
    PlugRedBlack(up, LeftLeaning(t, n, Black, s.left, s.n, c, Blacken(s.right)), if c == Red then h + 1 else h + 2);
  }

  lemma PaidFromLeft<T>(up: Path<T>, s: Tree<T>, n: T, c: Color, t: Tree<T>, h: int)
    requires Deficit(OnRight(up, s, n, c), t, h) && Blackish(t)
    requires s.Node? && s.c == Black && !Blackish(s.left)
    ensures RedBlack(Plug(up, RightLeaning(Blacken(s.left), s.n, c, s.right, n, Black, t)))
  {
    assert Balanced(s.left, h) && Balanced(s.right, h);
    assert Balanced(Node(s.right, n, Black, t), h + 1) && Balanced(Blacken(s.left), h + 1);
    PlugRedBlack(up, RightLeaning(Blacken(s.left), s.n, c, s.right, n, Black, t), if c == Red then h + 1 else h + 2);
  }

  // A finished tree counts as one with nothing above it.
  lemma Whole<T>(t: Tree<T>)
    requires RedBlack(t)
    ensures Deficit(Top, t, BlackHeight(t)) && Blackish(t)
  {
  }

  lemma EraseFinish<T>(p: Path<T>, t: Tree<T>, h: int)
    requires Deficit(p, t, h) && (Blackish(t) ==> p.Top?)
    ensures RedBlack(Plug(p, Blacken(t)))
  {
    if Blackish(t) {
      PlugRedBlack(p, t, h);
    } else {
      PlugRedBlack(p, Blacken(t), h + 1);
    }
  }

  /* ---------- taking a node out ---------- */

  // `after` is `before` without one occurrence of `x`.
  ghost predicate Removes<T>(before: seq<T>, x: T, after: seq<T>) {
    exists i :: 0 <= i < |before| && before[i] == x && after == before[..i] + before[i + 1..]
  }

  lemma RemovesMiddle<T>(a: seq<T>, x: T, b: seq<T>)
    ensures Removes(a + [x] + b, x, a + b)
  {
    var s := a + [x] + b;
    assert s[|a|] == x && a + b == s[..|a|] + s[|a| + 1..];
  }

  lemma Recenter<T>(a: seq<T>, b: seq<T>, c: seq<T>, d: seq<T>, e: seq<T>)
    ensures a + (b + c + d) + e == (a + b) + c + (d + e)
  {
  }

  lemma Assoc<T>(a: seq<T>, b: seq<T>, c: seq<T>)
    ensures (a + b) + c == a + (b + c)
  {
  }

  // `child` takes the place of a node with at most one child.
  lemma UnlinkSpell<T>(p: Path<T>, t: Tree<T>, u: Tree<T>)
    requires t.Node?
    requires (t.left == Leaf && u == t.right) || (t.right == Leaf && u == t.left)
    ensures Removes(Spell(p, t), t.n, Spell(p, u))
  {
    var a, l, r, b := Before(p), InOrder(t.left), InOrder(t.right), After(p);
    assert Spell(p, t) == (a + l) + [t.n] + (r + b) by { Recenter(a, l, [t.n], r, b); }
    RemovesMiddle(a + l, t.n, r + b);
    if t.left == Leaf {
      assert a + [] == a;
      Assoc(a, r, b);
    } else {
      assert [] + b == b;
    }
  }

  lemma UnlinkStep<T>(p: Path<T>, t: Tree<T>, u: Tree<T>)
    requires t.Node? && RedBlack(Plug(p, t))
    requires (t.left == Leaf && u == t.right) || (t.right == Leaf && u == t.left)
    ensures if t.c == Black then Deficit(p, u, BlackHeight(u)) else RedBlack(Plug(p, u))
  {
    var h := UnplugRedBlack(p, t);
    UnlinkBalance(p, t, u, h);
  }

  lemma UnlinkBalance<T>(p: Path<T>, t: Tree<T>, u: Tree<T>, h: int)
    requires t.Node? && (u == t.left || u == t.right)
    requires Balanced(t, h) && PathBalanced(p, h)
    ensures if t.c == Black then Deficit(p, u, BlackHeight(u)) else RedBlack(Plug(p, u))
  {
    if t.c == Black {
      BalancedHeight(u, h - 1);
    } else {
      PlugRedBlack(p, u, h);
    }
  }

  // The way from a subtree's root down to its first node.
  ghost predicate AllOnLeft<T>(s: Path<T>) {
    s.Top? || (s.OnLeft? && AllOnLeft(s.up))
  }

  lemma {:induction false} NothingBefore<T>(s: Path<T>)
    requires AllOnLeft(s)
    ensures Before(s) == []
  {
    if !s.Top? { NothingBefore(s.up); }
  }

  lemma {:induction false} AppendParts<T>(s: Path<T>, outer: Path<T>)
    ensures Before(Append(s, outer)) == Before(outer) + Before(s)
    ensures After(Append(s, outer)) == After(s) + After(outer)
  {
    match s
    case Top =>
      assert [] + After(outer) == After(outer);
    case OnLeft(up, n, c, r) =>
      AppendParts(up, outer);
      assert [n] + InOrder(r) + (After(up) + After(outer)) == ([n] + InOrder(r) + After(up)) + After(outer);
    case OnRight(up, l, n, c) =>
      AppendParts(up, outer);
      assert Before(outer) + Before(up) + InOrder(l) + [n] == Before(outer) + (Before(up) + InOrder(l) + [n]);
  }

  lemma {:induction false} Renamed<T>(s: Path<T>, p: Path<T>, l: Tree<T>, x: T, y: T, c: Color, h: int)
    ensures PathBalanced(Append(s, OnRight(p, l, x, c)), h) ==> PathBalanced(Append(s, OnRight(p, l, y, c)), h)
    ensures BlackFrame(Append(s, OnRight(p, l, x, c))) == BlackFrame(Append(s, OnRight(p, l, y, c)))
  {
    if !s.Top? {
      Renamed(s.up, p, l, x, y, c, if s.c == Red then h else h + 1);
    }
  }

  // The successor `y` of `x`, taken out of the right subtree, takes the place of `x`.
  lemma SuccessorStep<T>(s: Path<T>, p: Path<T>, l: Tree<T>, x: T, c: Color, y: T, cy: Color, r: Tree<T>)
    requires RedBlack(Plug(Append(s, OnRight(p, l, x, c)), Node(Leaf, y, cy, r)))
    ensures var now := Append(s, OnRight(p, l, y, c));
      if cy == Black then Deficit(now, r, BlackHeight(r)) else RedBlack(Plug(now, r))
  {
    var was, now, t := Append(s, OnRight(p, l, x, c)), Append(s, OnRight(p, l, y, c)), Node(Leaf, y, cy, r);
    var h := UnplugRedBlack(was, t);
    var k := if cy == Black then h - 1 else h;
    assert Balanced(r, k);
    BalancedHeight(r, k);
    Renamed(s, p, l, x, y, c, h);
    if cy == Red { PlugRedBlack(now, r, h); }
  }

  lemma SuccessorSpell<T>(s: Path<T>, p: Path<T>, l: Tree<T>, x: T, c: Color, y: T, cy: Color, r: Tree<T>)
    requires AllOnLeft(s)
    ensures Removes(Spell(Append(s, OnRight(p, l, x, c)), Node(Leaf, y, cy, r)), x,
      Spell(Append(s, OnRight(p, l, y, c)), r))
  {
    var was, now, t := Append(s, OnRight(p, l, x, c)), Append(s, OnRight(p, l, y, c)), Node(Leaf, y, cy, r);
    NothingBefore(s);
    AppendParts(s, OnRight(p, l, x, c));
    AppendParts(s, OnRight(p, l, y, c));
    var a, b, z := Before(p) + InOrder(l), InOrder(r), After(now);
    assert Before(was) == a + [x] && Before(now) == a + [y] && After(was) == z;
    assert InOrder(t) == [y] + b by { assert [] + [y] + b == [y] + b; }
    hide *;
    SuccessorSequence(a, x, y, b, z);
    SpellIs(was, t);
    SpellIs(now, r);
  }

  lemma SpellIs<T>(p: Path<T>, t: Tree<T>)
    ensures Spell(p, t) == Before(p) + InOrder(t) + After(p)
  {
  }

  lemma SuccessorSequence<T>(a: seq<T>, x: T, y: T, b: seq<T>, z: seq<T>)
    ensures Removes((a + [x]) + ([y] + b) + z, x, (a + [y]) + b + z)
  {
    Assoc(a + [x], [y] + b, z);
    Assoc(a, [y], b);
    Assoc(a, [y] + b, z);
    RemovesMiddle(a, x, [y] + b + z);
  }

  /* ---------- neighbours ---------- */

  // `r` holds what comes right after (before) `x`, or nothing at the end (beginning).
  ghost predicate NextIs<T>(s: seq<T>, x: T, r: seq<T>) {
    exists i :: 0 <= i < |s| && s[i] == x && r == (if i + 1 < |s| then [s[i + 1]] else [])
  }

  ghost predicate PrevIs<T>(s: seq<T>, x: T, r: seq<T>) {
    exists i :: 0 <= i < |s| && s[i] == x && r == (if i > 0 then [s[i - 1]] else [])
  }

  lemma NeighboursInMiddle<T>(a: seq<T>, x: T, b: seq<T>, s: seq<T>)
    requires s == a + [x] + b
    ensures NextIs(s, x, if b == [] then [] else [b[0]])
    ensures PrevIs(s, x, if a == [] then [] else [a[|a| - 1]])
  {
    var i := |a|;
    assert s[i] == x;
    assert b != [] ==> b[0] == s[i + 1];
    assert a != [] ==> a[i - 1] == s[i - 1];
  }

  ghost predicate AllOnRight<T>(s: Path<T>) {
    s.Top? || (s.OnRight? && AllOnRight(s.up))
  }

  lemma {:induction false} NothingAfter<T>(s: Path<T>)
    requires AllOnRight(s)
    ensures After(s) == []
  {
    if !s.Top? { NothingAfter(s.up); }
  }

  // The first node of the right subtree comes next, and the last one of the left comes before.
  lemma NextBelow<T>(s: Path<T>, p: Path<T>, l: Tree<T>, x: T, c: Color, y: T, cy: Color, r: Tree<T>)
    requires AllOnLeft(s)
    ensures NextIs(Spell(Append(s, OnRight(p, l, x, c)), Node(Leaf, y, cy, r)), x, [y])
  {
    var q := Append(s, OnRight(p, l, x, c));
    NothingBefore(s);
    AppendParts(s, OnRight(p, l, x, c));
    var a, b, z := Before(p) + InOrder(l), InOrder(r), After(q);
    assert Before(q) == a + [x];
    assert InOrder(Node(Leaf, y, cy, r)) == [y] + b by { assert [] + [y] + b == [y] + b; }
    hide *;
    SpellIs(q, Node(Leaf, y, cy, r));
    Assoc(a + [x], [y] + b, z);
    NeighboursInMiddle(a, x, [y] + b + z, a + [x] + ([y] + b + z));
  }

  lemma PrevBelow<T>(s: Path<T>, p: Path<T>, x: T, c: Color, r: Tree<T>, l: Tree<T>, y: T, cy: Color)
    requires AllOnRight(s)
    ensures PrevIs(Spell(Append(s, OnLeft(p, x, c, r)), Node(l, y, cy, Leaf)), x, [y])
  {
    var q := Append(s, OnLeft(p, x, c, r));
    NothingAfter(s);
    AppendParts(s, OnLeft(p, x, c, r));
    var z, b, a := InOrder(r) + After(p), InOrder(l), Before(q);
    assert After(q) == [x] + z by { Assoc([x], InOrder(r), After(p)); }
    assert InOrder(Node(l, y, cy, Leaf)) == b + [y] by { assert b + [y] + [] == b + [y]; }
    hide *;
    SpellIs(q, Node(l, y, cy, Leaf));
    PrevSequence(a, b, y, x, z);
  }

  lemma PrevSequence<T>(a: seq<T>, b: seq<T>, y: T, x: T, z: seq<T>)
    ensures PrevIs(a + (b + [y]) + ([x] + z), x, [y])
  {
    var w := a + (b + [y]);
    Assoc(w, [x], z);
    NeighboursInMiddle(w, x, z, w + [x] + z);
  }

  lemma AfterIs<T>(p: Path<T>)
    ensures p.Top? ==> After(p) == []
    ensures p.OnLeft? ==> After(p) != [] && After(p)[0] == p.n
  {
  }

  lemma BeforeIs<T>(p: Path<T>)
    ensures p.Top? ==> Before(p) == []
    ensures p.OnRight? ==> Before(p) != [] && Before(p)[|Before(p)| - 1] == p.n
  {
  }

  // Climbing from a right (left) child leaves what comes before (after) together.
  lemma ClimbRight<T>(p: Path<T>, t: Tree<T>)
    requires p.OnRight?
    ensures Before(p.up) + InOrder(Around(p, t)) == Before(p) + InOrder(t)
    ensures After(p.up) == After(p)
  {
    Assoc(Before(p.up), InOrder(p.left), [p.n]);
    Assoc(Before(p.up), InOrder(p.left) + [p.n], InOrder(t));
  }

  lemma ClimbLeft<T>(p: Path<T>, t: Tree<T>)
    requires p.OnLeft?
    ensures InOrder(Around(p, t)) + After(p.up) == InOrder(t) + After(p)
    ensures Before(p.up) == Before(p)
  {
    Assoc(InOrder(t), [p.n], InOrder(p.right));
    Assoc(InOrder(t), [p.n] + InOrder(p.right), After(p.up));
  }

  /* ---------- what the rules are for ---------- */

  function Pow2(n: nat): nat {
    if n == 0 then 1 else 2 * Pow2(n - 1)
  }

  ghost function Height<T>(t: Tree<T>): nat {
    match t
    case Leaf => 0
    case Node(l, _, _, r) =>
      1 + if Height(l) > Height(r) then Height(l) else Height(r)
  }

  // A red-black tree of n nodes is at most 2 * log2(n + 1) deep.
  lemma {:induction false} BalancedSize<T>(t: Tree<T>, h: nat)
    requires Balanced(t, h)
    ensures |InOrder(t)| + 1 >= Pow2(h)
    ensures Height(t) <= 2 * h + (if Blackish(t) then 0 else 1)
  {
    match t
    case Leaf =>
    case Node(l, _, Red, r) =>
      BalancedSize(l, h);
      BalancedSize(r, h);
    case Node(l, _, Black, r) =>
      BalancedSize(l, h - 1);
      BalancedSize(r, h - 1);
  }

  lemma {:induction false} RedBlackDepth<T>(t: Tree<T>)
    requires RedBlack(t)
    ensures exists h: nat :: Height(t) <= 2 * h && Pow2(h) <= |InOrder(t)| + 1
  {
    var h := BlackHeight(t);
    BalancedSize(t, h);
    assert Height(t) <= 2 * h && Pow2(h) <= |InOrder(t)| + 1;
  }
}
