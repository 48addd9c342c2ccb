/**
 The timer store of workflow/src/kernel/poller.c: a list kept sorted by appending, a red-black
 tree for deadlines that come out of order, and the wake-up time the kernel timer is armed with.
 */
module PollerTimers {
  import opened RedBlackTheory
  import opened RbTree
  import opened Wrappers

  ghost predicate Sorted(s: seq<RbNode>)
    reads s`timeout
  {
    forall i, j :: 0 <= i < j < |s| ==> s[i].timeout <= s[j].timeout
  }

  ghost predicate NoneAfter(s: seq<RbNode>, time: int)
    reads s`timeout
  {
    forall i :: 0 <= i < |s| ==> s[i].timeout <= time
  }

  ghost predicate AllAfter(s: seq<RbNode>, time: int)
    reads s`timeout
  {
    forall i :: 0 <= i < |s| ==> s[i].timeout > time
  }

  ghost predicate AllInTree(s: seq<RbNode>)
    reads s`inRbtree
  {
    forall n :: n in s ==> n.inRbtree
  }

  // Where a deadline belongs: after everything that is due no later.
  ghost predicate Splits(a: seq<RbNode>, time: int, b: seq<RbNode>)
    reads a`timeout, b`timeout
  {
    NoneAfter(a, time) && AllAfter(b, time)
  }

  lemma SplitSorted(a: seq<RbNode>, l: seq<RbNode>, n: RbNode, r: seq<RbNode>, b: seq<RbNode>, time: int)
    requires Sorted(a + (l + [n] + r) + b) && Splits(a, time, b)
    ensures time < n.timeout ==> Splits(a, time, [n] + r + b)
    ensures n.timeout <= time ==> Splits(a + l + [n], time, b)
  {
    var s := a + (l + [n] + r) + b;
    var k := |a| + |l|;
    assert s[k] == n;
    assert forall i :: 0 <= i < |[n] + r + b| ==> ([n] + r + b)[i] == s[k + i];
    assert forall i :: 0 <= i < |a + l + [n]| ==> (a + l + [n])[i] == s[i];
  }

  // `after` is `before` with `x` put where its deadline belongs.
  ghost predicate InsertedInOrder(before: seq<RbNode>, x: RbNode, after: seq<RbNode>)
    reads before`timeout, x`timeout
  {
    exists k :: 0 <= k <= |before| && Splits(before[..k], x.timeout, before[k..])
             && after == before[..k] + [x] + before[k..]
  }

  lemma InsertKeepsSorted(a: seq<RbNode>, x: RbNode, b: seq<RbNode>)
    requires Sorted(a + b) && Splits(a, x.timeout, b)
    ensures Sorted(a + [x] + b)
  {
    var s, t := a + b, a + [x] + b;
    assert forall i :: 0 <= i < |a| ==> t[i] == a[i] && s[i] == a[i];
    assert forall i :: |a| < i < |t| ==> t[i] == b[i - |a| - 1] && t[i] == s[i - 1];
    forall i, j | 0 <= i < j < |t|
      ensures t[i].timeout <= t[j].timeout
    {
      if i != |a| && j != |a| {
        assert t[i] == s[if i < |a| then i else i - 1] && t[j] == s[if j < |a| then j else j - 1];
      }
    }
  }

  lemma InsertSorted(a: seq<RbNode>, x: RbNode, b: seq<RbNode>)
    requires Sorted(a + b) && Splits(a, x.timeout, b)
    ensures Sorted(a + [x] + b) && InsertedInOrder(a + b, x, a + [x] + b)
  {
    InsertKeepsSorted(a, x, b);
    hide Sorted, Splits;
    var s := a + b;
    assert s[..|a|] == a && s[|a|..] == b;
  }

  class TimerStore {
    const root: RbRoot
    var treeFirst: RbNode?
    var treeLast: RbNode?
    var timeoList: seq<RbNode>
    var armed: Option<int>
    // The poller thread is awake: the timer has fired and has not been set again since.
    var awake: bool

    constructor ()
      ensures Valid() && Pending() == {} && fresh(root)
    {
      root := new RbRoot();
      treeFirst, treeLast, timeoList, armed, awake := null, null, [], None, false;
    }

    static ghost predicate Ends(s: seq<RbNode>, first: RbNode?, last: RbNode?) {
      if s == [] then first == null && last == null
      else first == s[0] && last == s[|s| - 1]
    }

    ghost predicate TreeValid()
      reads this`treeFirst, this`treeLast, root, root.Contents(), Nodes(root.tree)
    {
      && root.Valid() && Sorted(root.Contents())
      && Ends(root.Contents(), treeFirst, treeLast)
      && AllInTree(root.Contents())
    }

    // One step down the search path.
    lemma Descend(p: Path<RbNode>, l: Tree<RbNode>, n: RbNode, c: Color, r: Tree<RbNode>, time: int)
      requires Sorted(Spell(p, Node(l, n, c, r))) && Splits(Before(p), time, After(p))
      ensures time < n.timeout ==> Splits(Before(OnLeft(p, n, c, r)), time, After(OnLeft(p, n, c, r)))
      ensures n.timeout <= time ==> Splits(Before(OnRight(p, l, n, c)), time, After(OnRight(p, l, n, c)))
    {
      SplitSorted(Before(p), InOrder(l), n, InOrder(r), After(p), time);
    }

    // The empty place for a deadline that is due before the last one of the tree.
    method FindSlot(x: RbNode) returns (parent: RbNode, onLeft: bool, ghost p: Path<RbNode>)
      requires root.Valid() && Sorted(root.Contents()) && root.Contents() != []
      ensures root.Holds(p, Leaf) && Plug(p, Leaf) == root.tree && Spell(p, Leaf) == root.Contents()
      ensures Extent(p, Leaf) == Nodes(root.tree) && parent == ParentPtr(p) && onLeft == p.OnLeft?
      ensures Splits(Before(p), x.timeout, After(p))
    {
      p := Top;
      ghost var t, S, N := root.tree, root.Contents(), Nodes(root.tree);
      SpellTop(t);
      assert Splits(Before(p), x.timeout, After(p));
      hide Before, After, InOrder, Spell, Extent, Nodes, PathNodes, Sorted, Splits;
      hide RbRoot.Holds, RbRoot.PathLinked, Linked, Unique, PathUnique, RbRoot.Valid, RbRoot.AllDistinct;
      var cursor := root.node;
      parent, onLeft := cursor, false;
      while cursor != null
        invariant root.Holds(p, t) && Plug(p, t) == root.tree && cursor == Ptr(t)
        invariant Sorted(S) && Spell(p, t) == S && Extent(p, t) == N
        invariant p.Top? ==> t.Node?
        invariant !p.Top? ==> parent == p.n && onLeft == p.OnLeft?
        invariant Splits(Before(p), x.timeout, After(p))
        decreases t
      {
        parent := cursor;
        assert t == Node(t.left, t.n, t.c, t.right);
        root.Look(p, t.left, t.n, t.c, t.right);
        Descend(p, t.left, t.n, t.c, t.right, x.timeout);
        if x.timeout < parent.timeout {
          root.DownLeft(p, t.left, t.n, t.c, t.right);
          onLeft := true;
          cursor := parent.left;
          p, t := OnLeft(p, t.n, t.c, t.right), t.left;
        } else {
          root.DownRight(p, t.left, t.n, t.c, t.right);
          onLeft := false;
          cursor := parent.right;
          p, t := OnRight(p, t.left, t.n, t.c), t.right;
        }
      }
    }

    // The empty place after the last node.
    lemma LastSlot() returns (p: Path<RbNode>)
      requires TreeValid() && root.Contents() != []
      ensures root.Holds(p, Leaf) && Plug(p, Leaf) == root.tree && p.OnRight? && p.n == treeLast
      ensures Before(p) == root.Contents() && After(p) == [] && Extent(p, Leaf) == Nodes(root.tree)
    {
      InOrderNodes(root.tree);
      UniqueInOrder(root.tree);
      var q, t := root.Focus(treeLast);
      var a, b := Before(q) + InOrder(t.left), InOrder(t.right) + After(q);
      Recenter(Before(q), InOrder(t.left), [t.n], InOrder(t.right), After(q));
      assert root.Contents() == a + [treeLast] + b;
      var s := root.Contents();
      assert s[|a|] == treeLast && s[|s| - 1] == treeLast;
      assert b == [];
      assert t.right == Leaf;
      root.DownRight(q, t.left, t.n, t.c, Leaf);
      p := OnRight(q, t.left, t.n, t.c);
    }

    // A slot to the left of the first node is the first place, and no other slot is.
    static lemma FirstSlot(p: Path<RbNode>, s: seq<RbNode>, first: RbNode)
      requires !p.Top? && s == Spell(p, Leaf) && NoDuplicates(s) && s != [] && s[0] == first
      ensures s == Before(p) + After(p)
      ensures p.OnLeft? && p.n == first <==> Before(p) == []
    {
      assert Before(p) + [] == Before(p);
      AfterIs(p);
      BeforeIs(p);
      if p.OnLeft? {
        assert s[|Before(p)|] == p.n;
      }
    }

    // Where to link `x`, and what the first and the last node will then be.
    method ChooseSlot(x: RbNode)
      returns (parent: RbNode?, onLeft: bool, first: RbNode?, last: RbNode?, ghost p: Path<RbNode>)
      requires TreeValid() && x !in Nodes(root.tree)
      ensures root.Holds(p, Leaf) && RedBlack(Plug(p, Leaf)) && PathNodes(p) == Nodes(root.tree)
      ensures parent == ParentPtr(p) && (parent != null ==> onLeft == p.OnLeft?)
      ensures root.Contents() == Before(p) + After(p) && Splits(Before(p), x.timeout, After(p))
      ensures Ends(Before(p) + [x] + After(p), first, last)
      ensures Sorted(Before(p) + [x] + After(p)) && AllInTree(Before(p) + After(p))
    {
      parent, onLeft, first, last, p := null, false, treeFirst, treeLast, Top;
      ghost var S := root.Contents();
      assert allocated(S);
      TreeFacts();
      hide *;
      if root.node == null {
        first := x;
        last := x;
        LastEnds([], x, null, null);
      } else if x.timeout >= treeLast.timeout {
        p := LastSlot();
        LastEnds(S, x, first, treeLast);
        parent := treeLast;
        last := x;
      } else {
        parent, onLeft, p := FindSlot(x);
        FirstSlot(p, S, treeFirst);
        SlotEnds(Before(p), x, After(p), treeFirst, treeLast);
        if onLeft && parent == treeFirst {
          first := x;
        }
      }
      InsertSorted(Before(p), x, After(p));
    }

    lemma TreeFacts()
      requires TreeValid()
      ensures root.Valid() && RedBlack(root.tree) && NoDuplicates(root.Contents())
      ensures Sorted(root.Contents()) && AllInTree(root.Contents())
      ensures root.node == null <==> root.Contents() == []
      ensures root.Contents() != [] ==>
        root.Contents()[0] == treeFirst && root.Contents()[|root.Contents()| - 1] == treeLast
      ensures Ends(root.Contents(), treeFirst, treeLast)
      ensures root.Contents() == [] ==>
        var p: Path<RbNode> := Top;
        root.Holds(p, Leaf) && RedBlack(Plug(p, Leaf)) && PathNodes(p) == Nodes(root.tree) && Before(p) == []
          && After(p) == []
    {
      UniqueInOrder(root.tree);
    }

    static lemma LastEnds(s: seq<RbNode>, x: RbNode, first: RbNode?, last: RbNode?)
      requires s == [] || (Sorted(s) && Ends(s, first, last) && s[|s| - 1].timeout <= x.timeout)
      ensures s + [] == s && s + [x] + [] == s + [x]
      ensures Splits(s, x.timeout, []) && Ends(s + [x], if s == [] then x else first, x)
    {
    }

    static lemma SlotEnds(a: seq<RbNode>, x: RbNode, b: seq<RbNode>, first: RbNode, last: RbNode)
      requires Splits(a, x.timeout, b) && a + b != [] && Ends(a + b, first, last) && x.timeout < last.timeout
      ensures Ends(a + [x] + b, if a == [] then x else first, last)
    {
      var s := a + b;
      assert s[|s| - 1] == last;
      assert forall i :: 0 <= i < |a| ==> s[i] == a[i];
    }

    method TreeInsert(x: RbNode) returns (ghost a: seq<RbNode>, ghost b: seq<RbNode>)
      requires TreeValid() && x !in Nodes(root.tree)
      modifies this`treeFirst, this`treeLast, root, x`inRbtree, x`parent, x`left, x`right, x`color
      modifies Nodes(root.tree)`color, Nodes(root.tree)`left, Nodes(root.tree)`right, Nodes(root.tree)`parent
      ensures TreeValid() && Nodes(root.tree) == old(Nodes(root.tree)) + {x}
      ensures old(root.Contents()) == a + b && root.Contents() == a + [x] + b && Splits(a, x.timeout, b)
    {
      var parent, onLeft, first, last;
      ghost var p;
      parent, onLeft, first, last, p := ChooseSlot(x);
      hide *;
      a, b := Before(p), After(p);
      LinkInOrder(x, parent, onLeft, first, last, p, a, b);
    }

    method LinkInOrder(x: RbNode, parent: RbNode?, onLeft: bool, first: RbNode?, last: RbNode?,
                       ghost p: Path<RbNode>, ghost a: seq<RbNode>, ghost b: seq<RbNode>)
      requires root.Holds(p, Leaf) && RedBlack(Plug(p, Leaf)) && x !in PathNodes(p)
      requires parent == ParentPtr(p) && (parent != null ==> onLeft == p.OnLeft?)
      requires a == Before(p) && b == After(p) && Splits(a, x.timeout, b)
      requires Sorted(a + [x] + b) && AllInTree(a + b) && Ends(a + [x] + b, first, last)
      modifies this`treeFirst, this`treeLast, root, x`inRbtree, x`parent, x`left, x`right, x`color
      modifies PathNodes(p)`color, PathNodes(p)`left, PathNodes(p)`right, PathNodes(p)`parent
      ensures TreeValid() && root.Contents() == a + [x] + b && Nodes(root.tree) == PathNodes(p) + {x}
      ensures Splits(a, x.timeout, b)
    {
      ghost var s, P := a + [x] + b, PathNodes(p);
      assert forall n :: n in s && n != x ==> n.inRbtree;
      assert allocated(a) && allocated(b) && allocated(s) && allocated(P);
      hide *;
      treeFirst := first;
      treeLast := last;
      x.inRbtree := true;
      AddedToTree(x, s);
      InsertQuietly(x, parent, onLeft, p, a, b, s);
      TreeIsValid(s);
    }

    // The tree changes; the deadlines do not.
    method InsertQuietly(x: RbNode, parent: RbNode?, onLeft: bool, ghost p: Path<RbNode>,
                         ghost a: seq<RbNode>, ghost b: seq<RbNode>, ghost s: seq<RbNode>)
      requires root.Holds(p, Leaf) && RedBlack(Plug(p, Leaf)) && x !in PathNodes(p)
      requires parent == ParentPtr(p) && (parent != null ==> onLeft == p.OnLeft?)
      requires Splits(a, x.timeout, b) && Sorted(s) && AllInTree(s) && s == Before(p) + [x] + After(p)
      modifies root, x`parent, x`left, x`right, x`color
      modifies PathNodes(p)`color, PathNodes(p)`left, PathNodes(p)`right, PathNodes(p)`parent
      ensures root.Valid() && root.Contents() == s && Nodes(root.tree) == PathNodes(p) + {x}
      ensures Splits(a, x.timeout, b) && Sorted(s) && AllInTree(s)
    {
      hide *;
      assert allocated(a) && allocated(b) && allocated(s);
      root.Insert(x, parent, onLeft, p);
    }

    static lemma AddedToTree(x: RbNode, s: seq<RbNode>)
      requires x.inRbtree && forall n :: n in s && n != x ==> n.inRbtree
      ensures AllInTree(s)
    {
    }

    lemma TreeIsValid(s: seq<RbNode>)
      requires root.Valid() && root.Contents() == s && Sorted(s) && Ends(s, treeFirst, treeLast)
      requires AllInTree(s)
      ensures TreeValid()
    {
    }

    // Taking out a node keeps the rest in order, and only its neighbours can become the ends.
    static lemma EraseSorted(s: seq<RbNode>, x: RbNode, t: seq<RbNode>)
      requires Removes(s, x, t) && NoDuplicates(s) && Sorted(s) && AllInTree(s)
      ensures Sorted(t) && AllInTree(t) && x !in t
    {
      var i :| 0 <= i < |s| && s[i] == x && t == s[..i] + s[i + 1..];
      assert forall k :: 0 <= k < |t| ==> t[k] == s[if k < i then k else k + 1];
      assert x !in t;
      assert AllInTree(t);
      hide NoDuplicates, AllInTree;
      forall j, k | 0 <= j < k < |t|
        ensures t[j].timeout <= t[k].timeout
      {
        assert t[j] == s[if j < i then j else j + 1] && t[k] == s[if k < i then k else k + 1];
      }
    }

    static lemma EraseEnds(s: seq<RbNode>, x: RbNode, first: RbNode?, last: RbNode?, next: RbNode?, prev: RbNode?)
      requires NoDuplicates(s) && Ends(s, first, last) && x in s
      requires x == first ==> NextIs(s, x, if next == null then [] else [next])
      requires x == last ==> PrevIs(s, x, if prev == null then [] else [prev])
      ensures EndsWithout(s, x, if x == first then next else first, if x == last then prev else last)
    {
      var i :| 0 <= i < |s| && s[i] == x;
      assert s[0] == first && s[|s| - 1] == last;
      assert x == first ==> i == 0;
      assert x == last ==> i == |s| - 1;
      assert Ends(s[..i] + s[i + 1..], if x == first then next else first, if x == last then prev else last);
    }

    static ghost predicate EndsWithout(s: seq<RbNode>, x: RbNode, first: RbNode?, last: RbNode?) {
      exists i :: 0 <= i < |s| && s[i] == x && Ends(s[..i] + s[i + 1..], first, last)
    }

    // The ends of the tree once `x` is gone.
    method EndsAfterErase(x: RbNode) returns (first: RbNode?, last: RbNode?)
      requires TreeValid() && x in Nodes(root.tree)
      ensures EndsWithout(root.Contents(), x, first, last)
    {
      ghost var S := root.Contents();
      TreeFacts();
      InOrderNodes(root.tree);
      assert x in S;
      hide *;
      first, last := treeFirst, treeLast;
      var next, prev := null, null;
      if x == treeFirst {
        next := root.Next(x);
        first := next;
      }
      if x == treeLast {
        prev := root.Prev(x);
        last := prev;
      }
      EraseEnds(S, x, treeFirst, treeLast, next, prev);
    }

    method EraseQuietly(x: RbNode)
      requires root.Valid() && x in Nodes(root.tree)
      requires NoDuplicates(root.Contents()) && Sorted(root.Contents()) && AllInTree(root.Contents())
      modifies root
      modifies Nodes(root.tree)`color, Nodes(root.tree)`left, Nodes(root.tree)`right, Nodes(root.tree)`parent
      ensures root.Valid() && Removes(old(root.Contents()), x, root.Contents())
      ensures Nodes(root.tree) == old(Nodes(root.tree)) - {x}
      ensures Sorted(root.Contents()) && AllInTree(root.Contents()) && x !in root.Contents()
    {
      hide *;
      ghost var S := root.Contents();
      assert allocated(S);
      root.Erase(x);
      EraseSorted(S, x, root.Contents());
    }

    method TreeErase(x: RbNode)
      requires TreeValid() && x in Nodes(root.tree)
      modifies this`treeFirst, this`treeLast, root, x`inRbtree
      modifies Nodes(root.tree)`color, Nodes(root.tree)`left, Nodes(root.tree)`right, Nodes(root.tree)`parent
      ensures TreeValid() && Removes(old(root.Contents()), x, root.Contents())
      ensures Nodes(root.tree) == old(Nodes(root.tree)) - {x} && !x.inRbtree
    {
      ghost var S, N := root.Contents(), Nodes(root.tree);
      assert allocated(S) && allocated(N);
      hide *;
      TreeFacts();
      var first, last := EndsAfterErase(x);
      EraseQuietly(x);
      Unmark(x, first, last, S);
    }

    // The node is out of the tree; its mark and the cached ends follow.
    method Unmark(x: RbNode, first: RbNode?, last: RbNode?, ghost was: seq<RbNode>)
      requires root.Valid() && Sorted(root.Contents()) && AllInTree(root.Contents()) && x !in root.Contents()
      requires Removes(was, x, root.Contents()) && EndsWithout(was, x, first, last) && NoDuplicates(was)
      modifies this`treeFirst, this`treeLast, x`inRbtree
      ensures TreeValid() && !x.inRbtree
    {
      treeFirst := first;
      treeLast := last;
      x.inRbtree := false;
    }

    /* ---------- the whole store ---------- */

    ghost function Listed(): set<RbNode>
      reads this`timeoList
    {
      set n | n in timeoList
    }

    // The nodes that wait for their deadline.
    ghost function Pending(): set<RbNode>
      reads this`timeoList, root
    {
      Nodes(root.tree) + Listed()
    }

    ghost predicate ListValid()
      reads this`timeoList, root, timeoList`timeout, timeoList`inRbtree
    {
      && Sorted(timeoList) && NoDuplicates(timeoList)
      && (forall n :: n in timeoList ==> !n.inRbtree)
      && Listed() !! Nodes(root.tree)
    }

    // A timer set to `time` rings no later than any of these deadlines.
    static ghost predicate Covers(time: Option<int>, s: set<RbNode>)
      reads s`timeout
    {
      forall n :: n in s ==> time.Some? && time.value <= n.timeout
    }

    // The timer rings no later than the first deadline, or has rung already.
    ghost predicate ArmedInTime()
      reads this`timeoList, this`armed, this`awake, root, Pending()`timeout
    {
      awake || Covers(armed, Pending())
    }

    ghost predicate Stored()
      reads this`treeFirst, this`treeLast, this`timeoList, root, root.Contents(), Nodes(root.tree), timeoList
    {
      TreeValid() && ListValid()
    }

    ghost predicate Valid()
      reads this, root, root.Contents(), Nodes(root.tree), timeoList
    {
      Stored() && ArmedInTime()
    }

    // No deadline is missed: once one has passed, the timer rings if it has not rung before.
    lemma NeverLate(n: RbNode, now: int)
      requires Valid() && n in Pending() && n.timeout <= now
      ensures awake || (armed.Some? && armed.value <= now)
    {
    }

    lemma TreeMinimum(n: RbNode)
      requires TreeValid() && n in Nodes(root.tree)
      ensures treeFirst != null && treeFirst in Nodes(root.tree) && treeFirst.timeout <= n.timeout
    {
      InOrderNodes(root.tree);
      var s := root.Contents();
      var i :| 0 <= i < |s| && s[i] == n;
      assert s[0] in s;
    }

    lemma ListMinimum(n: RbNode)
      requires ListValid() && n in timeoList
      ensures timeoList[0].timeout <= n.timeout <= timeoList[|timeoList| - 1].timeout
      ensures timeoList[0] in Listed() && timeoList[|timeoList| - 1] in Listed()
    {
    }

    method AppendToList(x: RbNode)
      requires Stored() && x !in Pending() && !x.inRbtree
      requires timeoList != [] ==> timeoList[|timeoList| - 1].timeout <= x.timeout
      modifies this`timeoList
      ensures Stored() && timeoList == old(timeoList) + [x] && Listed() == old(Listed()) + {x}
      ensures root.Contents() == old(root.Contents())
    {
      ghost var C, N, L := root.Contents(), Nodes(root.tree), timeoList;
      assert allocated(C) && allocated(N) && allocated(L);
      timeoList := timeoList + [x];
      assert TreeValid();
      assert Listed() == old(Listed()) + {x};
    }

    method TreeInsertBesideList(x: RbNode)
      requires Stored() && x !in Pending() && !x.inRbtree
      modifies this`treeFirst, this`treeLast, root, x`inRbtree, x`parent, x`left, x`right, x`color
      modifies Nodes(root.tree)`color, Nodes(root.tree)`left, Nodes(root.tree)`right, Nodes(root.tree)`parent
      ensures Stored() && Nodes(root.tree) == old(Nodes(root.tree)) + {x} && Listed() == old(Listed())
      ensures InsertedInOrder(old(root.Contents()), x, root.Contents())
      ensures treeFirst == x ==> forall n :: n in old(Nodes(root.tree)) ==> x.timeout < n.timeout
    {
      ghost var L, N, S := timeoList, Nodes(root.tree), root.Contents();
      assert allocated(L) && allocated(N) && allocated(S);
      InOrderNodes(root.tree);
      assert N == set n | n in S;
      assert x !in L && TreeValid() && x !in N;
      assert Sorted(L) && NoDuplicates(L) && (forall n :: n in L ==> !n.inRbtree) && Listed() !! N;
      hide TreeValid, Sorted, NoDuplicates, Splits;
      ghost var a, b := TreeInsert(x);
      hide *;
      assert Sorted(timeoList);
      StillListed(x, N);
      assert a + b == S;
      FirstIsLess(a, x, b, N);
    }

    // A new node that comes first is due before all the others.
    lemma FirstIsLess(a: seq<RbNode>, x: RbNode, b: seq<RbNode>, tree: set<RbNode>)
      requires TreeValid() && root.Contents() == a + [x] + b && Splits(a, x.timeout, b)
      requires tree == (set n | n in a + b) && x !in tree
      ensures InsertedInOrder(a + b, x, root.Contents())
      ensures treeFirst == x ==> forall n :: n in tree ==> x.timeout < n.timeout
    {
      var s := a + b;
      assert s[..|a|] == a && s[|a|..] == b;
      if treeFirst == x {
        assert a == [];
        assert s == b;
      }
    }

    lemma StillListed(x: RbNode, tree: set<RbNode>)
      requires Sorted(timeoList) && NoDuplicates(timeoList) && (forall n :: n in timeoList ==> !n.inRbtree)
      requires Listed() !! tree && x !in timeoList && Nodes(root.tree) == tree + {x}
      ensures ListValid()
    {
    }

    // What the first deadlines of list and tree say about all of them.
    lemma Earliest()
      requires Stored()
      ensures forall n :: n in Nodes(root.tree) ==> treeFirst != null && treeFirst.timeout <= n.timeout
      ensures treeFirst != null ==> treeFirst in Nodes(root.tree)
      ensures forall n :: n in Listed() ==> timeoList[0].timeout <= n.timeout <= timeoList[|timeoList| - 1].timeout
      ensures timeoList != [] ==> timeoList[0] in Listed() && timeoList[|timeoList| - 1] in Listed()
    {
      forall n | n in Nodes(root.tree)
        ensures treeFirst != null && treeFirst.timeout <= n.timeout
      {
        TreeMinimum(n);
      }
      if treeFirst != null {
        InOrderNodes(root.tree);
        assert root.Contents()[0] == treeFirst;
      }
      forall n | n in Listed()
        ensures timeoList[0].timeout <= n.timeout <= timeoList[|timeoList| - 1].timeout
      {
        ListMinimum(n);
      }
    }

    // The list takes a node that is due no earlier than its last one, the tree any other.
    ghost predicate Joins(x: RbNode, list: seq<RbNode>, tree: seq<RbNode>)
      reads this`timeoList, root, list`timeout, tree`timeout, x`timeout
    {
      if list == [] || x.timeout >= list[|list| - 1].timeout
      then timeoList == list + [x] && root.Contents() == tree
      else timeoList == list && InsertedInOrder(tree, x, root.Contents())
    }

    // Puts `x` into the list or the tree.  When its deadline may be the first one, `end` is the
    // node to compare with; otherwise `earlier` is due no later.
    method Place(x: RbNode) returns (maybeFirst: bool, end: RbNode?, ghost earlier: RbNode?)
      requires Stored() && x !in Pending() && !x.inRbtree
      modifies this`timeoList, this`treeFirst, this`treeLast, root, x`inRbtree, x`parent, x`left, x`right, x`color
      modifies Nodes(root.tree)`color, Nodes(root.tree)`left, Nodes(root.tree)`right, Nodes(root.tree)`parent
      ensures Stored() && Pending() == old(Pending()) + {x}
      ensures !maybeFirst ==> earlier in old(Pending()) && earlier.timeout <= x.timeout
      ensures maybeFirst && treeFirst == null ==> old(Pending()) == {}
      ensures maybeFirst && treeFirst != null ==>
        && end in old(Pending())
        && (x.timeout < end.timeout ==> forall n :: n in old(Pending()) ==> x.timeout < n.timeout)
      ensures Joins(x, old(timeoList), old(root.Contents()))
    {
      Earliest();
      ghost var S, C := Pending(), root.Contents();
      assert allocated(S) && allocated(C);
      if timeoList == [] {
        end := treeFirst;
        AppendToList(x);
        return true, end, null;
      } else if x.timeout >= timeoList[|timeoList| - 1].timeout {
        earlier := timeoList[|timeoList| - 1];
        AppendToList(x);
        return false, null, earlier;
      } else {
        maybeFirst, end, earlier := PlaceInTree(x);
      }
    }

    method PlaceInTree(x: RbNode) returns (maybeFirst: bool, end: RbNode?, ghost earlier: RbNode?)
      requires Stored() && x !in Pending() && !x.inRbtree && timeoList != []
      modifies this`treeFirst, this`treeLast, root, x`inRbtree, x`parent, x`left, x`right, x`color
      modifies Nodes(root.tree)`color, Nodes(root.tree)`left, Nodes(root.tree)`right, Nodes(root.tree)`parent
      ensures Stored() && Pending() == old(Pending()) + {x} && treeFirst != null
      ensures !maybeFirst ==> earlier in old(Pending()) && earlier.timeout <= x.timeout
      ensures maybeFirst ==>
        && end in old(Pending())
        && (x.timeout < end.timeout ==> forall n :: n in old(Pending()) ==> x.timeout < n.timeout)
      ensures InsertedInOrder(old(root.Contents()), x, root.Contents())
    {
      ghost var S, C, N := Pending(), root.Contents(), Nodes(root.tree);
      assert allocated(S) && allocated(C) && allocated(N);
      TreeInsertBesideList(x);
      Earliest();
      hide Stored;
      if x != treeFirst {
        return false, null, treeFirst;
      }
      end := timeoList[0];
      return true, end, null;
    }

    method InsertNode(x: RbNode)
      requires Valid() && x !in Pending() && !x.inRbtree
      modifies this, root, x`inRbtree, x`parent, x`left, x`right, x`color
      modifies Nodes(root.tree)`color, Nodes(root.tree)`left, Nodes(root.tree)`right, Nodes(root.tree)`parent
      ensures Valid() && Pending() == old(Pending()) + {x} && awake == old(awake)
      ensures Joins(x, old(timeoList), old(root.Contents()))
      ensures armed == if ComesFirst(x, old(Pending())) then Some(x.timeout) else old(armed)
    {
      ghost var S, C, L := Pending(), root.Contents(), timeoList;
      assert Stored() && (awake || Covers(armed, S));
      hide *;
      PlaceAndArm(x, S, L, C);
    }

    method PlaceAndArm(x: RbNode, ghost was: set<RbNode>, ghost list: seq<RbNode>, ghost tree: seq<RbNode>)
      requires Stored() && x !in Pending() && !x.inRbtree && (awake || Covers(armed, was))
      requires was == Pending() && list == timeoList && tree == root.Contents()
      modifies this, root, x`inRbtree, x`parent, x`left, x`right, x`color
      modifies Nodes(root.tree)`color, Nodes(root.tree)`left, Nodes(root.tree)`right, Nodes(root.tree)`parent
      ensures Valid() && Pending() == was + {x} && awake == old(awake) && Joins(x, list, tree)
      ensures armed == if ComesFirst(x, was) then Some(x.timeout) else old(armed)
    {
      hide *;
      assert allocated(was) && allocated(tree) && allocated(list);
      var maybeFirst, end;
      ghost var earlier;
      maybeFirst, end, earlier := Place(x);
      Arm(x, was, list, tree, maybeFirst, end, earlier);
    }

    static ghost predicate ComesFirst(x: RbNode, s: set<RbNode>)
      reads x`timeout, s`timeout
    {
      forall n :: n in s ==> x.timeout < n.timeout
    }

    method Arm(x: RbNode, ghost was: set<RbNode>, ghost list: seq<RbNode>, ghost tree: seq<RbNode>,
            maybeFirst: bool, end: RbNode?, ghost earlier: RbNode?)
      requires Stored() && Pending() == was + {x} && (awake || Covers(armed, was))
      requires !maybeFirst ==> earlier in was && earlier.timeout <= x.timeout
      requires maybeFirst && treeFirst == null ==> was == {}
      requires maybeFirst && treeFirst != null ==>
        end in was && (x.timeout < end.timeout ==> forall n :: n in was ==> x.timeout < n.timeout)
      requires Joins(x, list, tree)
      modifies this`armed
      ensures Valid() && Pending() == old(Pending()) && Joins(x, list, tree)
      ensures armed == if ComesFirst(x, was) then Some(x.timeout) else old(armed)
    {
      ghost var C, N, L := root.Contents(), Nodes(root.tree), timeoList;
      hide Stored, Pending, Joins;
      if maybeFirst && (treeFirst == null || x.timeout < end.timeout) {
        armed := Some(x.timeout);
      }
      assert Pending() == was + {x};
      assert awake || Covers(armed, was + {x});
    }

    method ListDel(x: RbNode)
      requires Stored() && x in timeoList
      modifies this`timeoList
      ensures Stored() && Listed() == old(Listed()) - {x} && x !in Nodes(root.tree)
      ensures |timeoList| < |old(timeoList)| && root.Contents() == old(root.Contents())
      ensures x == old(timeoList)[0] ==> timeoList == old(timeoList)[1..]
    {
      ghost var C, N, L := root.Contents(), Nodes(root.tree), timeoList;
      var i :| 0 <= i < |timeoList| && timeoList[i] == x;
      timeoList := timeoList[..i] + timeoList[i + 1..];
      assert TreeValid();
      ListWithout(L, i, timeoList);
    }

    static lemma ListWithout(s: seq<RbNode>, i: nat, t: seq<RbNode>)
      requires i < |s| && t == s[..i] + s[i + 1..] && Sorted(s) && NoDuplicates(s)
      ensures Sorted(t) && NoDuplicates(t)
      ensures (set n | n in t) == (set n | n in s) - {s[i]}
    {
      assert forall k :: 0 <= k < |t| ==> t[k] == if k < i then s[k] else s[k + 1];
      forall n | n in s && n != s[i]
        ensures n in t
      {
        var k :| 0 <= k < |s| && s[k] == n;
        assert t[if k < i then k else k - 1] == n;
      }
    }

    method TreeEraseBesideList(x: RbNode)
      requires Stored() && x in Nodes(root.tree)
      modifies this`treeFirst, this`treeLast, root, x`inRbtree
      modifies Nodes(root.tree)`color, Nodes(root.tree)`left, Nodes(root.tree)`right, Nodes(root.tree)`parent
      ensures Stored() && Nodes(root.tree) == old(Nodes(root.tree)) - {x} && Listed() == old(Listed()) && !x.inRbtree
    {
      ghost var L := timeoList;
      assert allocated(L);
      assert x !in L;
      TreeErase(x);
      assert Sorted(timeoList);
    }

    lemma Whereabouts(x: RbNode)
      requires Valid() && x in Pending()
      ensures Stored() && (awake || Covers(armed, Pending())) && Pending() == Nodes(root.tree) + Listed()
      ensures if x.inRbtree then x in Nodes(root.tree) && x !in Listed() else x in timeoList
    {
      InOrderNodes(root.tree);
    }

    // Takes a node out of whichever container it is in.
    method RemoveNode(x: RbNode)
      requires Valid() && x in Pending()
      modifies this, root, x`inRbtree
      modifies Nodes(root.tree)`color, Nodes(root.tree)`left, Nodes(root.tree)`right, Nodes(root.tree)`parent
      ensures Valid() && Pending() == old(Pending()) - {x} && !x.inRbtree && awake == old(awake)
      ensures Nodes(root.tree) <= old(Nodes(root.tree)) && armed == old(armed)
    {
      hide *;
      ghost var S := Pending();
      assert allocated(S);
      Whereabouts(x);
      if x.inRbtree {
        TreeEraseBesideList(x);
      } else {
        ListDel(x);
      }
      StillArmed(S, x);
    }

    lemma StillArmed(was: set<RbNode>, x: RbNode)
      requires Stored() && Nodes(root.tree) + Listed() == was - {x} && (awake || Covers(armed, was))
      ensures Valid() && Pending() == was - {x}
    {
    }

    // A node outside the store can change its deadline.
    method Retime(x: RbNode, time: int)
      requires Valid() && x !in Pending()
      modifies x`timeout
      ensures Valid() && Pending() == old(Pending()) && x.timeout == time && Nodes(root.tree) == old(Nodes(root.tree))
    {
      InOrderNodes(root.tree);
      assert x !in root.Contents() && x !in timeoList;
      x.timeout := time;
    }

    method InsertAt(x: RbNode, time: int)
      requires Valid() && x !in Pending() && !x.inRbtree
      modifies this, root, x, Nodes(root.tree)`color, Nodes(root.tree)`left, Nodes(root.tree)`right
      modifies Nodes(root.tree)`parent
      ensures Valid() && Pending() == old(Pending()) + {x} && awake == old(awake) && x.timeout == time
    {
      ghost var N, P := Nodes(root.tree), Pending();
      assert allocated(N) && allocated(P);
      hide *;
      Retime(x, time);
      InsertNode(x);
    }

    // Sets the timer to the first deadline, and goes to sleep.
    method SetTimer()
      requires Valid()
      modifies this`armed, this`awake
      ensures Valid() && !awake && Pending() == old(Pending())
      ensures armed == None <==> Pending() == {}
      ensures armed.Some? ==> exists n :: n in Pending() && n.timeout == armed.value
    {
      ghost var C, N, L := root.Contents(), Nodes(root.tree), timeoList;
      Earliest();
      var node: RbNode? := null;
      if timeoList != [] {
        node := timeoList[0];
      }
      if treeFirst != null {
        if node == null || treeFirst.timeout < node.timeout {
          node := treeFirst;
        }
      }
      hide Stored;
      assert node != null ==> node in Pending();
      armed := if node != null then Some(node.timeout) else None;
      awake := false;
    }

    // The timer rings.
    method Fire(now: int)
      requires Valid() && armed.Some? && armed.value <= now
      modifies this`awake
      ensures Valid() && awake && Pending() == old(Pending())
    {
      ghost var C, N, L := root.Contents(), Nodes(root.tree), timeoList;
      hide Stored;
      awake := true;
    }

    // Takes the first node out of the tree.
    method PopTreeFirst() returns (x: RbNode)
      requires Stored() && treeFirst != null
      modifies this`treeFirst, this`treeLast, root
      modifies Nodes(root.tree)`color, Nodes(root.tree)`left, Nodes(root.tree)`right, Nodes(root.tree)`parent
      ensures Stored() && x == old(treeFirst) && x in old(Nodes(root.tree))
      ensures Nodes(root.tree) == old(Nodes(root.tree)) - {x} && timeoList == old(timeoList)
      ensures Removes(old(root.Contents()), x, root.Contents())
    {
      hide *;
      var next;
      x, next := NextFirst();
      PopQuietly(x, next, root.Contents());
    }

    method NextFirst() returns (x: RbNode, next: RbNode?)
      requires Stored() && treeFirst != null
      ensures x == treeFirst && x in Nodes(root.tree)
      ensures root.Valid() && NoDuplicates(root.Contents()) && Sorted(root.Contents()) && AllInTree(root.Contents())
      ensures ListValid() && EndsWithout(root.Contents(), x, next, if next == null then null else treeLast)
    {
      x := treeFirst;
      ghost var S, N, L := root.Contents(), Nodes(root.tree), timeoList;
      assert allocated(S) && allocated(N) && allocated(L);
      FirstFacts();
      hide *;
      next := root.Next(x);
      FirstGone(S, x, treeLast, next);
    }

    lemma FirstFacts()
      requires Stored() && treeFirst != null
      ensures root.Valid() && ListValid() && Sorted(root.Contents()) && AllInTree(root.Contents())
      ensures NoDuplicates(root.Contents()) && Ends(root.Contents(), treeFirst, treeLast)
      ensures treeFirst in root.Contents() && treeFirst in Nodes(root.tree) && root.Contents()[0] == treeFirst
    {
      TreeFacts();
      InOrderNodes(root.tree);
    }

    static lemma FirstGone(s: seq<RbNode>, x: RbNode, last: RbNode?, next: RbNode?)
      requires NoDuplicates(s) && Ends(s, x, last) && x in s
      requires NextIs(s, x, if next == null then [] else [next])
      ensures EndsWithout(s, x, next, if next == null then null else last)
    {
      assert s[0] == x;
      assert Ends(s[..0] + s[0 + 1..], next, if next == null then null else last);
    }

    method PopQuietly(x: RbNode, next: RbNode?, ghost was: seq<RbNode>)
      requires root.Valid() && x in Nodes(root.tree) && was == root.Contents() && NoDuplicates(was)
      requires Sorted(was) && AllInTree(was) && ListValid()
      requires EndsWithout(was, x, next, if next == null then null else treeLast)
      modifies this`treeFirst, this`treeLast, root
      modifies Nodes(root.tree)`color, Nodes(root.tree)`left, Nodes(root.tree)`right, Nodes(root.tree)`parent
      ensures Stored() && Nodes(root.tree) == old(Nodes(root.tree)) - {x} && Removes(was, x, root.Contents())
    {
      ghost var L := timeoList;
      assert allocated(L) && allocated(was);
      treeFirst := next;
      EraseQuietly(x);
      if treeFirst == null {
        treeLast := null;
      }
      EndsOf(was, x, root.Contents(), treeFirst, treeLast);
    }

    static lemma EndsOf(s: seq<RbNode>, x: RbNode, t: seq<RbNode>, first: RbNode?, last: RbNode?)
      requires EndsWithout(s, x, first, last) && Removes(s, x, t) && NoDuplicates(s)
      ensures Ends(t, first, last)
    {
    }

    // `expired` was taken out of what was pending, and is due.
    ghost predicate Taken(was: set<RbNode>, expired: seq<RbNode>, now: int)
      reads this`timeoList, root, expired`timeout
    {
      && Pending() == was - (set n | n in expired)
      && (forall n :: n in expired ==> n in was && n.timeout <= now)
      && NoDuplicates(expired)
    }

    lemma TakeOne(was: set<RbNode>, expired: seq<RbNode>, x: RbNode, before: set<RbNode>, now: int)
      requires before == was - (set n | n in expired) && x in before && Pending() == before - {x}
      requires (forall n :: n in expired ==> n in was && n.timeout <= now) && NoDuplicates(expired)
      requires x.timeout <= now
      ensures Taken(was, expired + [x], now)
    {
      var t := expired + [x];
      assert forall n :: n in t <==> n in expired || n == x;
    }

    method PopListFirst(ghost was: set<RbNode>, expired0: seq<RbNode>, now: int) returns (expired: seq<RbNode>)
      requires Stored() && Taken(was, expired0, now) && timeoList != [] && timeoList[0].timeout <= now
      modifies this`timeoList
      ensures Stored() && Taken(was, expired, now) && |timeoList| < old(|timeoList|)
      ensures timeoList == old(timeoList)[1..] && root.Contents() == old(root.Contents())
      ensures expired == expired0 + [old(timeoList)[0]]
    {
      ghost var S := Pending();
      assert allocated(S) && allocated(expired0) && allocated(was);
      var x := timeoList[0];
      assert x in S;
      hide Stored, NoDuplicates;
      ListDel(x);
      assert Pending() == S - {x};
      TakeOne(was, expired0, x, S, now);
      expired := expired0 + [x];
    }

    method PopTreeDue(ghost was: set<RbNode>, expired0: seq<RbNode>, ghost x0: RbNode, now: int)
      returns (expired: seq<RbNode>)
      requires Stored() && Taken(was, expired0, now) && treeFirst == x0 && x0.timeout <= now
      modifies this`treeFirst, this`treeLast, root
      modifies Nodes(root.tree)`color, Nodes(root.tree)`left, Nodes(root.tree)`right, Nodes(root.tree)`parent
      ensures Stored() && Taken(was, expired, now) && timeoList == old(timeoList)
      ensures Nodes(root.tree) < old(Nodes(root.tree)) && expired == expired0 + [x0]
      ensures Removes(old(root.Contents()), x0, root.Contents())
    {
      ghost var S, N, C := Pending(), Nodes(root.tree), root.Contents();
      assert allocated(S) && allocated(expired0) && allocated(was) && allocated(N) && allocated(C);
      assert Listed() !! N;
      hide Stored, NoDuplicates, Removes;
      var x := PopTreeFirst();
      assert x in N && x !in Nodes(root.tree);
      assert Pending() == S - {x};
      TakeOne(was, expired0, x, S, now);
      expired := expired0 + [x];
    }

    // `expired` is what is due at `now`, and `rest` what is not.
    static ghost predicate DueParted(was: set<RbNode>, expired: seq<RbNode>, rest: set<RbNode>, now: int)
      reads was`timeout
    {
      && (set n | n in expired) == (set n | n in was && n.timeout <= now)
      && rest == set n | n in was && n.timeout > now
    }

    // Takes out everything that is due at `now`.
    method HandleTimeout(now: int) returns (expired: seq<RbNode>)
      requires Valid()
      modifies this`timeoList, this`treeFirst, this`treeLast, root
      modifies Nodes(root.tree)`color, Nodes(root.tree)`left, Nodes(root.tree)`right, Nodes(root.tree)`parent
      ensures Valid() && NoDuplicates(expired) && DueParted(old(Pending()), expired, Pending(), now)
      ensures InTurn(old(timeoList), old(root.Contents()), timeoList, root.Contents(), expired)
    {
      hide *;
      ghost var S, L, C := Pending(), timeoList, root.Contents();
      assert allocated(S) && allocated(L) && allocated(C);
      ValidParts();
      expired := TakeDue(S, L, C, now);
      AllTaken(S, expired, now);
    }

    lemma ValidParts()
      requires Valid()
      ensures Stored() && (awake || Covers(armed, Pending()))
    {
    }

    method TakeDue(ghost was: set<RbNode>, ghost list: seq<RbNode>, ghost tree: seq<RbNode>, now: int)
      returns (expired: seq<RbNode>)
      requires Stored() && was == Pending() && list == timeoList && tree == root.Contents()
      modifies this`timeoList, this`treeFirst, this`treeLast, root
      modifies Nodes(root.tree)`color, Nodes(root.tree)`left, Nodes(root.tree)`right, Nodes(root.tree)`parent
      ensures Stored() && Taken(was, expired, now) && InTurn(list, tree, timeoList, root.Contents(), expired)
      ensures timeoList == [] || timeoList[0].timeout > now
      ensures treeFirst == null || treeFirst.timeout > now
    {
      ghost var N := Nodes(root.tree);
      assert allocated(was) && allocated(list) && allocated(tree) && allocated(N);
      hide *;
      NothingTaken(was, list, tree, now);
      expired := TakeFromList(was, list, tree, [], now);
      expired := TakeFromTree(was, list, tree, expired, now);
    }

    // The front of the list was taken, and then the front of the tree, each in its order.
    static ghost predicate InTurn(list: seq<RbNode>, tree: seq<RbNode>, listRest: seq<RbNode>, treeRest: seq<RbNode>,
            expired: seq<RbNode>)
    {
      && |listRest| <= |list| && |treeRest| <= |tree|
      && listRest == list[|list| - |listRest|..] && treeRest == tree[|tree| - |treeRest|..]
      && expired == list[..|list| - |listRest|] + tree[..|tree| - |treeRest|]
    }

    lemma NothingTaken(was: set<RbNode>, list: seq<RbNode>, tree: seq<RbNode>, now: int)
      requires was == Pending()
      ensures Taken(was, [], now) && InTurn(list, tree, list, tree, [])
    {
    }

    static lemma ListTurn(list: seq<RbNode>, tree: seq<RbNode>, rest: seq<RbNode>, expired: seq<RbNode>)
      requires InTurn(list, tree, rest, tree, expired) && rest != []
      ensures InTurn(list, tree, rest[1..], tree, expired + [rest[0]])
    {
      var k := |list| - |rest|;
      assert list[..k] + [list[k]] == list[..k + 1];
    }

    static lemma TreeTurn(list: seq<RbNode>, tree: seq<RbNode>, listRest: seq<RbNode>, rest: seq<RbNode>,
            expired: seq<RbNode>, x: RbNode, t: seq<RbNode>)
      requires InTurn(list, tree, listRest, rest, expired) && NoDuplicates(rest)
      requires rest != [] && rest[0] == x && Removes(rest, x, t)
      ensures InTurn(list, tree, listRest, t, expired + [x])
    {
      assert t == rest[1..];
      var k := |tree| - |rest|;
      assert tree[..k] + [tree[k]] == tree[..k + 1];
    }

    method TakeFromList(ghost was: set<RbNode>, ghost list: seq<RbNode>, ghost tree: seq<RbNode>,
            expired0: seq<RbNode>, now: int)
      returns (expired: seq<RbNode>)
      requires Stored() && Taken(was, expired0, now) && InTurn(list, tree, timeoList, tree, expired0)
      requires tree == root.Contents()
      modifies this`timeoList
      ensures Stored() && Taken(was, expired, now) && InTurn(list, tree, timeoList, root.Contents(), expired)
      ensures timeoList == [] || timeoList[0].timeout > now
    {
      hide *;
      expired := expired0;
      while timeoList != [] && timeoList[0].timeout <= now
        invariant Stored() && Taken(was, expired, now) && InTurn(list, tree, timeoList, tree, expired)
        invariant root.Contents() == tree
        decreases |timeoList|
      {
        ListTurn(list, tree, timeoList, expired);
        expired := PopListFirst(was, expired, now);
      }
    }

    method TakeFromTree(ghost was: set<RbNode>, ghost list: seq<RbNode>, ghost tree: seq<RbNode>,
            expired0: seq<RbNode>, now: int)
      returns (expired: seq<RbNode>)
      requires Stored() && Taken(was, expired0, now) && InTurn(list, tree, timeoList, root.Contents(), expired0)
      modifies this`treeFirst, this`treeLast, root
      modifies Nodes(root.tree)`color, Nodes(root.tree)`left, Nodes(root.tree)`right, Nodes(root.tree)`parent
      ensures Stored() && Taken(was, expired, now) && timeoList == old(timeoList)
      ensures InTurn(list, tree, timeoList, root.Contents(), expired)
      ensures treeFirst == null || treeFirst.timeout > now
    {
      hide *;
      ghost var N := Nodes(root.tree);
      assert allocated(N);
      expired := expired0;
      while treeFirst != null && treeFirst.timeout <= now
        invariant Stored() && Nodes(root.tree) <= N && Taken(was, expired, now)
        invariant InTurn(list, tree, timeoList, root.Contents(), expired)
        decreases Nodes(root.tree)
      {
        ghost var rest, before, x: RbNode := root.Contents(), expired, treeFirst;
        FirstFacts();
        expired := PopTreeDue(was, expired, x, now);
        TreeTurn(list, tree, timeoList, rest, before, x, root.Contents());
      }
    }

    lemma AllTaken(was: set<RbNode>, expired: seq<RbNode>, now: int)
      requires Stored() && Taken(was, expired, now) && (awake || Covers(armed, was))
      requires timeoList == [] || timeoList[0].timeout > now
      requires treeFirst == null || treeFirst.timeout > now
      ensures Valid() && NoDuplicates(expired) && DueParted(was, expired, Pending(), now)
    {
      Earliest();
      hide Stored, NoDuplicates;
      assert forall n :: n in Pending() ==> n.timeout > now;
    }

    // The tree's root, as long as there is one.
    lemma RootFacts()
      requires root.Valid()
      ensures root.node == null <==> Nodes(root.tree) == {}
      ensures root.node != null ==> root.node in Nodes(root.tree)
    {
    }

    // Takes the whole store apart, the tree from its root.
    method TakeDown() returns (all: seq<RbNode>)
      requires Stored()
      modifies this`timeoList, this`treeFirst, this`treeLast, root
      modifies Nodes(root.tree)`color, Nodes(root.tree)`left, Nodes(root.tree)`right, Nodes(root.tree)`parent
      ensures Valid() && Pending() == {}
      ensures NoDuplicates(all) && (set n | n in all) == old(Pending())
    {
      ghost var N, L := Nodes(root.tree), Listed();
      assert allocated(N) && NoDuplicates(timeoList) && L !! N && Pending() == N + L;
      treeFirst, treeLast := null, null;
      all := TakeDownTree();
      Spliced(timeoList, all);
      all := timeoList + all;
      timeoList := [];
      EmptyIsValid();
    }

    method TakeDownTree() returns (all: seq<RbNode>)
      requires root.Valid()
      modifies root
      modifies Nodes(root.tree)`color, Nodes(root.tree)`left, Nodes(root.tree)`right, Nodes(root.tree)`parent
      ensures root.Valid() && Nodes(root.tree) == {}
      ensures NoDuplicates(all) && (set n | n in all) == old(Nodes(root.tree))
    {
      ghost var N := Nodes(root.tree);
      assert allocated(N);
      all := [];
      RootFacts();
      hide Nodes, RbRoot.Valid;
      while root.node != null
        invariant root.Valid() && Nodes(root.tree) <= N && NoDuplicates(all)
        invariant (set n | n in all) == N - Nodes(root.tree)
        invariant root.node == null <==> Nodes(root.tree) == {}
        invariant root.node != null ==> root.node in Nodes(root.tree)
        decreases Nodes(root.tree)
      {
        var x := root.node;
        ghost var before := Nodes(root.tree);
        PutFirst(x, all);
        all := [x] + all;
        root.Erase(x);
        assert Nodes(root.tree) == before - {x};
        RootFacts();
      }
    }

    static lemma PutFirst(x: RbNode, all: seq<RbNode>)
      requires NoDuplicates(all)
      ensures x !in all ==> NoDuplicates([x] + all)
      ensures (set n | n in [x] + all) == (set n | n in all) + {x}
    {
      assert forall n :: n in [x] + all <==> n == x || n in all;
    }

    static lemma Spliced(a: seq<RbNode>, b: seq<RbNode>)
      requires NoDuplicates(a) && NoDuplicates(b) && (set n | n in a) !! (set n | n in b)
      ensures NoDuplicates(a + b) && (set n | n in a + b) == (set n | n in a) + (set n | n in b)
    {
      var s, t := a + b, set n | n in a;
      assert forall n :: n in s <==> n in a || n in b;
      assert forall i :: 0 <= i < |a| ==> s[i] == a[i] && s[i] in t;
      assert forall i :: |a| <= i < |s| ==> s[i] == b[i - |a|] && s[i] in b && s[i] !in t;
    }

    lemma EmptyIsValid()
      requires root.Valid() && Nodes(root.tree) == {} && timeoList == [] && treeFirst == null && treeLast == null
      ensures Valid() && Pending() == {}
    {
      InOrderNodes(root.tree);
      assert root.Contents() == [];
    }
  }

  // All nodes of a poller: with the timer store, the list of those that have no deadline.
  class NodeStore {
    const timed: TimerStore
    var noTimeoList: seq<RbNode>

    constructor ()
      ensures Valid() && Held() == {} && fresh(timed) && fresh(timed.root)
    {
      timed := new TimerStore();
      noTimeoList := [];
    }

    ghost function Untimed(): set<RbNode>
      reads this`noTimeoList
    {
      set n | n in noTimeoList
    }

    ghost function Held(): set<RbNode>
      reads this`noTimeoList, timed`timeoList, timed.root
    {
      timed.Pending() + Untimed()
    }

    // A node is in the timeout list, in the tree, or in the list of nodes without a deadline, and
    // never in two of them; `inRbtree` tells the tree from the lists.
    ghost predicate Valid()
      reads this, timed, timed.root, timed.root.Contents(), Nodes(timed.root.tree), timed.timeoList, noTimeoList
    {
      && timed.Valid() && NoDuplicates(noTimeoList) && Untimed() !! timed.Pending()
      && forall n :: n in noTimeoList ==> !n.inRbtree
    }

    // list_del, or __poller_tree_erase: out of whichever container the node is in.
    method TakeOut(x: RbNode)
      requires Valid() && x in Held()
      modifies this`noTimeoList, timed, timed.root, x`inRbtree
      modifies Nodes(timed.root.tree)`color, Nodes(timed.root.tree)`left, Nodes(timed.root.tree)`right
      modifies Nodes(timed.root.tree)`parent
      ensures Valid() && Held() == old(Held()) - {x} && !x.inRbtree
      ensures timed.Pending() == old(timed.Pending()) - {x} && timed.awake == old(timed.awake)
      ensures Nodes(timed.root.tree) <= old(Nodes(timed.root.tree))
    {
      ghost var U, P := noTimeoList, timed.Pending();
      assert allocated(U) && allocated(P);
      if x in noTimeoList {
        DropUntimed(x);
      } else {
        hide TimerStore.Valid;
        timed.RemoveNode(x);
      }
    }

    method DropUntimed(x: RbNode)
      requires Valid() && x in noTimeoList
      modifies this`noTimeoList
      ensures Valid() && Untimed() == old(Untimed()) - {x} && x !in timed.Pending() && !x.inRbtree
    {
      hide TimerStore.Valid;
      var k :| 0 <= k < |noTimeoList| && noTimeoList[k] == x;
      Dropped(noTimeoList, k);
      ghost var was, P, N, C, L := Untimed(), timed.Pending(), Nodes(timed.root.tree), timed.root.Contents(),
        timed.timeoList;
      assert was !! P && x in was && allocated(N) && allocated(C) && allocated(L);
      noTimeoList := noTimeoList[..k] + noTimeoList[k + 1..];
    }

    static lemma Dropped(s: seq<RbNode>, k: int)
      requires NoDuplicates(s) && 0 <= k < |s|
      ensures var t := s[..k] + s[k + 1..];
        && NoDuplicates(t) && (set n | n in t) == (set n | n in s) - {s[k]}
        && forall n :: n in t ==> n in s
    {
      var t := s[..k] + s[k + 1..];
      assert forall i :: 0 <= i < |t| ==> t[i] == s[if i < k then i else i + 1];
      assert forall i :: 0 <= i < |s| && i != k ==> s[i] == t[if i < k then i else i - 1];
    }

    // poller_set_timeout on a registered node, `now` being the time: a negative timeout is none.
    method SetTimeout(x: RbNode, timeout: int, now: int)
      requires Valid() && x in Held()
      modifies this`noTimeoList, timed, timed.root, Nodes(timed.root.tree), x
      ensures Valid() && Held() == old(Held()) && timed.awake == old(timed.awake)
      ensures x in timed.Pending() <==> timeout >= 0
      ensures x.timeout == if timeout >= 0 then now + timeout else old(x.timeout)
    {
      ghost var N, H := Nodes(timed.root.tree), Held();
      assert allocated(N) && allocated(H);
      TakeOut(x);
      Insert(x, timeout, now);
    }

    // The end of poller_add, poller_mod, poller_add_timer and poller_set_timeout.
    method Insert(x: RbNode, timeout: int, now: int)
      requires Valid() && x !in Held() && !x.inRbtree
      modifies this`noTimeoList, timed, timed.root, Nodes(timed.root.tree), x
      ensures Valid() && Held() == old(Held()) + {x} && timed.awake == old(timed.awake)
      ensures x in timed.Pending() <==> timeout >= 0
      ensures x.timeout == if timeout >= 0 then now + timeout else old(x.timeout)
    {
      ghost var N, U, P := Nodes(timed.root.tree), noTimeoList, timed.Pending();
      assert allocated(N) && allocated(U) && allocated(P);
      hide TimerStore.Valid;
      if timeout >= 0 {
        timed.InsertAt(x, now + timeout);
      } else {
        noTimeoList := noTimeoList + [x];
      }
    }

    // What poller_stop takes out: everything, each node once.
    method TakeDown() returns (all: seq<RbNode>)
      requires Valid()
      modifies this`noTimeoList, timed`timeoList, timed`treeFirst, timed`treeLast, timed.root
      modifies Nodes(timed.root.tree)`color, Nodes(timed.root.tree)`left, Nodes(timed.root.tree)`right
      modifies Nodes(timed.root.tree)`parent
      ensures Valid() && Held() == {}
      ensures NoDuplicates(all) && (set n | n in all) == old(Held())
    {
      ghost var U, P := noTimeoList, timed.Pending();
      assert allocated(U) && allocated(P);
      all := timed.TakeDown();
      TimerStore.Spliced(noTimeoList, all);
      all := noTimeoList + all;
      noTimeoList := [];
    }
  }
}
