/**
 The load scheduler of workflow/src/kernel/CommScheduler.cc: a group keeps its targets in a
 binary heap ordered by load ratio, compared by cross-multiplication, and every target knows its
 place in the heap.
 */
module CommScheduler {

  class CommSchedTarget {
    const maxLoad: int
    var curLoad: int
    var waitCnt: int
    var index: int
    var group: CommSchedGroup?

    constructor (maxConnections: int)
      requires maxConnections > 0
      ensures maxLoad == maxConnections && curLoad == 0 && waitCnt == 0 && group == null
    {
      maxLoad := maxConnections;
      curLoad := 0;
      waitCnt := 0;
      index := 0;
      group := null;
    }

    // A target's state: its load is within its maximum and its group, if any, is in order.
    ghost predicate Sound()
      reads this, group, if group == null then {} else {group.tgHeap},
        if group == null then {} else (set t | t in group.heap),
        if group == null then {} else (set t | t in group.members)
    {
      InBounds(this) && (group != null ==> group.Valid() && this in group.members)
    }

    // What taking or giving back a connection may change.
    ghost function Touched(): set<object?>
      reads this, group
    {
      if group == null then {this} else {this, group, group.tgHeap} + (set t | t in group.members)
    }

    // CommSchedTarget::acquire, in the state in which waiting ended; `failure` as in the group's.
    method Acquire(failure: int) returns (ret: int)
      requires Sound() && failure != 0
      modifies Touched()
      ensures Sound() && group == old(group)
      ensures ret == (if old(curLoad) < maxLoad then 0 else failure)
      ensures curLoad == old(curLoad) + (if ret == 0 then 1 else 0)
      ensures group != null ==> group.members == old(group.members)
      ensures group != null ==> group.curLoad == old(group.curLoad) + (if ret == 0 then 1 else 0)
      ensures group != null ==> forall m :: m in group.members && m != this ==> m.curLoad == old(m.curLoad)
      ensures group != null && ret == 0 ==>
        |group.heap| == |old(group.heap)| && CommSchedGroup.Sunk(old(group.heap), group.heap, this)
    {
      if curLoad >= maxLoad {
        ret := failure;
      } else {
        if group != null {
          group.Take(this);
        } else {
          curLoad := curLoad + 1;
        }
        ret := 0;
      }
    }

    // CommSchedTarget::release, by a caller who holds a connection.
    method Release(idle: bool)
      requires Sound() && curLoad > 0
      modifies Touched()
      ensures Sound() && group == old(group) && curLoad == old(curLoad) - 1
      ensures group != null ==> group.members == old(group.members) && group.curLoad == old(group.curLoad) - 1
      ensures group != null ==> forall m :: m in group.members && m != this ==> m.curLoad == old(m.curLoad)
      // With an idle connection the target goes above all that are loaded as much; without one it
      // stays where it is unless its parent is loaded more.
      ensures group != null && idle ==>
        0 <= index < |group.heap| && group.heap[index] == this
        && (index > 0 ==> !AtMost(this, group.heap[Parent(index)]))
      ensures group != null && !idle ==>
        && 0 <= old(index) < |old(group.heap)| == |group.heap|
        && (old(index) == 0 || AtMost(old(group.heap)[Parent(old(index))], this) ==> group.heap == old(group.heap))
    {
      if group != null {
        group.Give(this, idle);
      } else {
        curLoad := curLoad - 1;
      }
    }
  }

  function TargetCmp(target1: CommSchedTarget, target2: CommSchedTarget): int
    reads target1`curLoad, target2`curLoad
  {
    var load1 := target1.curLoad * target2.maxLoad;
    var load2 := target2.curLoad * target1.maxLoad;
    if load1 < load2 then -1 else if load1 > load2 then 1 else 0
  }

  // The load ratio of `a` is at most that of `b`.
  ghost predicate AtMost(a: CommSchedTarget, b: CommSchedTarget)
    reads a`curLoad, b`curLoad
  {
    a.curLoad * b.maxLoad <= b.curLoad * a.maxLoad
  }

  ghost predicate InBounds(t: CommSchedTarget)
    reads t`curLoad
  {
    t.maxLoad > 0 && 0 <= t.curLoad <= t.maxLoad
  }

  // Cross-multiplication compares the ratios.
  lemma CmpIsRatio(a: CommSchedTarget, b: CommSchedTarget)
    requires a.maxLoad > 0 && b.maxLoad > 0
    ensures var c := TargetCmp(a, b);
      && (c < 0 <==> (a.curLoad as real) / (a.maxLoad as real) < (b.curLoad as real) / (b.maxLoad as real))
      && (c == 0 <==> (a.curLoad as real) / (a.maxLoad as real) == (b.curLoad as real) / (b.maxLoad as real))
  {
    var x, m, y, n := a.curLoad as real, a.maxLoad as real, b.curLoad as real, b.maxLoad as real;
    assert x * n == (a.curLoad * b.maxLoad) as real && y * m == (b.curLoad * a.maxLoad) as real;
    CrossMultiply(x, m, y, n);
  }

  lemma CrossMultiply(x: real, m: real, y: real, n: real)
    requires m > 0.0 && n > 0.0
    ensures x * n < y * m <==> x / m < y / n
    ensures x * n == y * m <==> x / m == y / n
  {
    var p, q := x / m, y / n;
    assert x == p * m && y == q * n;
    assert x * n == p * (m * n) && y * m == q * (m * n);
    var k := m * n;
    assert k > 0.0;
    if p < q { assert (q - p) * k > 0.0; }
    if q < p { assert (p - q) * k > 0.0; }
  }

  lemma CmpAtMost(a: CommSchedTarget, b: CommSchedTarget)
    ensures var c := TargetCmp(a, b);
      (c <= 0 <==> AtMost(a, b)) && (c >= 0 <==> AtMost(b, a))
  {
  }

  lemma AtMostTotal(a: CommSchedTarget, b: CommSchedTarget)
    ensures AtMost(a, b) || AtMost(b, a)
  {
  }

  lemma AtMostTransitive(a: CommSchedTarget, b: CommSchedTarget, c: CommSchedTarget)
    requires AtMost(a, b) && AtMost(b, c)
    requires a.maxLoad > 0 && b.maxLoad > 0 && c.maxLoad > 0
    ensures AtMost(a, c)
  {
    var x, y, z, l, m, n := a.curLoad, b.curLoad, c.curLoad, a.maxLoad, b.maxLoad, c.maxLoad;
    Scale(x * m, y * l, n);
    Scale(y * n, z * m, l);
    assert (x * m) * n == (x * n) * m && (y * l) * n == (y * n) * l && (z * m) * l == (z * l) * m;
    Unscale(x * n, z * l, m);
  }

  lemma Scale(u: int, v: int, k: int)
    requires u <= v && k > 0
    ensures u * k <= v * k
  {
  }

  lemma ScaleStrictly(u: int, v: int, k: int)
    requires u < v && k > 0
    ensures u * k < v * k
  {
    Scale(u + 1, v, k);
    assert (u + 1) * k == u * k + k;
  }

  lemma Unscale(u: int, v: int, k: int)
    requires u * k <= v * k && k > 0
    ensures u <= v
  {
    if u > v {
      ScaleStrictly(v, u, k);
    }
  }

  /* ---------- binary heaps ---------- */

  function Parent(i: int): int {
    (i - 1) / 2
  }

  ghost predicate Positive(h: seq<CommSchedTarget>) {
    forall i :: 0 <= i < |h| ==> h[i].maxLoad > 0
  }

  ghost predicate Ordered(h: seq<CommSchedTarget>)
    reads h`curLoad
  {
    forall i :: 0 < i < |h| ==> AtMost(h[Parent(i)], h[i])
  }

  // Ordered, except between position `k` and its parent and children.
  ghost predicate OrderedAround(h: seq<CommSchedTarget>, k: int)
    requires 0 <= k < |h|
    reads h`curLoad
  {
    && (forall i :: 0 < i < |h| && i != k && Parent(i) != k ==> AtMost(h[Parent(i)], h[i]))
    && (forall i :: 0 < k && 0 < i < |h| && Parent(i) == k ==> AtMost(h[Parent(k)], h[i]))
  }

  ghost predicate AboveFits(h: seq<CommSchedTarget>, k: int)
    requires 0 <= k < |h|
    reads h`curLoad
  {
    0 < k ==> AtMost(h[Parent(k)], h[k])
  }

  ghost predicate BelowFits(h: seq<CommSchedTarget>, k: int)
    requires 0 <= k < |h|
    reads h`curLoad
  {
    forall i :: 0 < i < |h| && Parent(i) == k ==> AtMost(h[k], h[i])
  }

  function Swap(h: seq<CommSchedTarget>, i: int, j: int): seq<CommSchedTarget>
    requires 0 <= i < |h| && 0 <= j < |h|
  {
    h[i := h[j]][j := h[i]]
  }

  ghost function Elems(h: seq<CommSchedTarget>): set<CommSchedTarget> {
    set t | t in h
  }

  lemma ElemAt(h: seq<CommSchedTarget>, i: int)
    requires 0 <= i < |h|
    ensures h[i] in Elems(h)
  {
  }

  lemma SwapElems(h: seq<CommSchedTarget>, i: int, j: int)
    requires 0 <= i < |h| && 0 <= j < |h|
    ensures Elems(Swap(h, i, j)) == Elems(h)
  {
    var g := Swap(h, i, j);
    forall k | 0 <= k < |h|
      ensures h[k] in g
    {
      assert h[k] == g[if k == i then j else if k == j then i else k];
    }
  }

  lemma AroundIsOrdered(h: seq<CommSchedTarget>, k: int)
    requires 0 <= k < |h|
    requires OrderedAround(h, k) && AboveFits(h, k) && BelowFits(h, k)
    ensures Ordered(h)
  {
    hide AtMost;
  }

  lemma OrderedIsAround(h: seq<CommSchedTarget>, k: int)
    requires 0 <= k < |h| && Positive(h) && Ordered(h)
    ensures OrderedAround(h, k) && AboveFits(h, k) && BelowFits(h, k)
  {
    hide AtMost;
    forall i | 0 < k && 0 < i < |h| && Parent(i) == k
      ensures AtMost(h[Parent(k)], h[i])
    {
      AtMostTransitive(h[Parent(k)], h[k], h[i]);
    }
  }

  // A target put at the end of a heap.
  lemma AppendedAround(h: seq<CommSchedTarget>, t: CommSchedTarget)
    requires Positive(h) && Ordered(h) && t.maxLoad > 0
    ensures var g := h + [t]; Positive(g) && OrderedAround(g, |h|) && BelowFits(g, |h|)
  {
    hide AtMost;
  }

  // The last target of a heap put in the place of another one.
  ghost function Replaced(h: seq<CommSchedTarget>, k: int): seq<CommSchedTarget>
    requires 0 <= k < |h| - 1
  {
    h[..|h| - 1][k := h[|h| - 1]]
  }

  lemma ReplacedAround(h: seq<CommSchedTarget>, k: int)
    requires 0 <= k < |h| - 1 && Positive(h) && Ordered(h)
    ensures var g := Replaced(h, k);
      Positive(g) && OrderedAround(g, k)
  {
    OrderedIsAround(h, k);
    hide AtMost;
  }

  lemma ReplacedElems(h: seq<CommSchedTarget>, k: int)
    requires 0 <= k < |h| - 1 && Distinct(h)
    ensures Elems(Replaced(h, k)) == Elems(h) - {h[k]}
  {
    var g := Replaced(h, k);
    forall i | 0 <= i < |h| && i != k
      ensures h[i] in g
    {
      assert h[i] == g[if i == |h| - 1 then k else i];
    }
  }

  lemma PrefixElems(h: seq<CommSchedTarget>)
    requires |h| > 0 && Distinct(h)
    ensures Elems(h[..|h| - 1]) == Elems(h) - {h[|h| - 1]}
  {
  }

  lemma PrefixOrdered(h: seq<CommSchedTarget>)
    requires |h| > 0 && Positive(h) && Ordered(h)
    ensures Positive(h[..|h| - 1]) && Ordered(h[..|h| - 1])
  {
    hide AtMost;
  }

  lemma LessLoad(a: CommSchedTarget, b: CommSchedTarget)
    requires AtMost(a, b) && b.maxLoad > 0
    ensures (a.curLoad - 1) * b.maxLoad <= b.curLoad * a.maxLoad
  {
  }

  // Moving a light target up past its parent.
  lemma SiftUp(h: seq<CommSchedTarget>, k: int)
    requires 0 < k < |h| && Positive(h) && OrderedAround(h, k) && AtMost(h[k], h[Parent(k)])
    ensures var t := Swap(h, k, Parent(k));
      Positive(t) && OrderedAround(t, Parent(k)) && BelowFits(t, Parent(k))
  {
    hide AtMost;
    var p, t := Parent(k), Swap(h, k, Parent(k));
    forall i | 0 < i < |t| && Parent(i) == p
      ensures AtMost(t[p], t[i])
      ensures 0 < p ==> AtMost(t[Parent(p)], t[i])
    {
      if i != k {
        AtMostTransitive(h[k], h[p], h[i]);
        if 0 < p { AtMostTransitive(h[Parent(p)], h[p], h[i]); }
      }
    }
  }

  // `c` is a child of `k` and no child of `k` is loaded less.
  ghost predicate Lightest(h: seq<CommSchedTarget>, k: int, c: int)
    requires 0 <= k < |h| && 0 <= c < |h|
    reads h`curLoad
  {
    (c == 2 * k + 1 || c == 2 * k + 2) && forall i :: 0 < i < |h| && Parent(i) == k ==> AtMost(h[c], h[i])
  }

  lemma LightestOfTwo(h: seq<CommSchedTarget>, k: int, c: int, d: int)
    requires 0 <= k && 2 * k + 2 < |h| && {c, d} == {2 * k + 1, 2 * k + 2} && Positive(h)
    requires AtMost(h[c], h[k]) || AtMost(h[d], h[k])
    requires AtMost(h[c], h[d]) || (AtMost(h[c], h[k]) && AtMost(h[k], h[d]))
    ensures Lightest(h, k, c) && AtMost(h[c], h[k])
  {
    assert AtMost(h[c], h[c]);
    hide AtMost;
    assert c in {c, d} && d in {c, d};
    if AtMost(h[c], h[d]) && AtMost(h[d], h[k]) { AtMostTransitive(h[c], h[d], h[k]); }
    if AtMost(h[c], h[k]) && AtMost(h[k], h[d]) { AtMostTransitive(h[c], h[k], h[d]); }
  }

  lemma LightestAlone(h: seq<CommSchedTarget>, k: int)
    requires 0 <= k && |h| == 2 * k + 2
    ensures Lightest(h, k, 2 * k + 1)
  {
  }

  lemma LeafFits(h: seq<CommSchedTarget>, k: int)
    requires 0 <= k < |h| <= 2 * k + 1
    ensures BelowFits(h, k)
  {
  }

  lemma LightestFits(h: seq<CommSchedTarget>, k: int, c: int)
    requires 0 <= k < |h| && 0 <= c < |h| && Positive(h) && Lightest(h, k, c) && AtMost(h[k], h[c])
    ensures BelowFits(h, k)
  {
    hide AtMost;
    forall i | 0 < i < |h| && Parent(i) == k
      ensures AtMost(h[k], h[i])
    {
      AtMostTransitive(h[k], h[c], h[i]);
    }
  }

  lemma StayAbove(h: seq<CommSchedTarget>, k: int, c: int)
    requires 0 <= k && c == 2 * k + 1 && c + 1 < |h| && AtMost(h[k], h[c]) && AtMost(h[k], h[c + 1])
    ensures BelowFits(h, k)
  {
  }

  // Moving a heavy target down past its lightest child.
  lemma SiftDown(h: seq<CommSchedTarget>, k: int, c: int)
    requires 0 <= k < |h| && 0 < c < |h| && Positive(h) && Lightest(h, k, c)
    requires OrderedAround(h, k) && AboveFits(h, k) && AtMost(h[c], h[k])
    ensures var t := Swap(h, k, c);
      Positive(t) && OrderedAround(t, c) && AboveFits(t, c)
  {
    hide AtMost;
    assert Parent(c) == k;
  }

  // The root of a heap has the smallest load ratio.
  lemma {:induction false} RootIsMinimal(h: seq<CommSchedTarget>, i: int)
    requires 0 <= i < |h| && Positive(h) && Ordered(h)
    ensures AtMost(h[0], h[i])
    decreases i
  {
    if i > 0 {
      RootIsMinimal(h, Parent(i));
      AtMostTransitive(h[0], h[Parent(i)], h[i]);
    }
  }

  /* ---------- totals ---------- */

  ghost function SumCur(m: seq<CommSchedTarget>): int
    reads m`curLoad
  {
    if m == [] then 0 else m[0].curLoad + SumCur(m[1..])
  }

  ghost function SumMax(m: seq<CommSchedTarget>): int {
    if m == [] then 0 else m[0].maxLoad + SumMax(m[1..])
  }

  lemma {:induction false} SumCurSplit(a: seq<CommSchedTarget>, b: seq<CommSchedTarget>)
    ensures SumCur(a + b) == SumCur(a) + SumCur(b)
  {
    if a == [] {
      assert a + b == b;
    } else {
      assert (a + b)[1..] == a[1..] + b;
      SumCurSplit(a[1..], b);
    }
  }

  lemma {:induction false} SumMaxSplit(a: seq<CommSchedTarget>, b: seq<CommSchedTarget>)
    ensures SumMax(a + b) == SumMax(a) + SumMax(b)
  {
    if a == [] {
      assert a + b == b;
    } else {
      assert (a + b)[1..] == a[1..] + b;
      SumMaxSplit(a[1..], b);
    }
  }

  lemma SumWith(m: seq<CommSchedTarget>, t: CommSchedTarget)
    ensures SumCur(m + [t]) == SumCur(m) + t.curLoad && SumMax(m + [t]) == SumMax(m) + t.maxLoad
  {
    SumCurSplit(m, [t]);
    SumMaxSplit(m, [t]);
  }

  function Without(m: seq<CommSchedTarget>, j: int): seq<CommSchedTarget>
    requires 0 <= j < |m|
  {
    m[..j] + m[j + 1..]
  }

  lemma WithoutOne(m: seq<CommSchedTarget>, j: int)
    requires 0 <= j < |m|
    ensures SumCur(m) == SumCur(Without(m, j)) + m[j].curLoad
    ensures SumMax(m) == SumMax(Without(m, j)) + m[j].maxLoad
  {
    assert m == m[..j] + m[j..] && m[j..] == [m[j]] + m[j + 1..];
    SumCurSplit(m[..j], m[j..]);
    SumCurSplit(m[..j], m[j + 1..]);
    SumMaxSplit(m[..j], m[j..]);
    SumMaxSplit(m[..j], m[j + 1..]);
  }

  ghost predicate Distinct(m: seq<CommSchedTarget>) {
    forall i, j :: 0 <= i < j < |m| ==> m[i] != m[j]
  }

  lemma WithoutDistinct(m: seq<CommSchedTarget>, j: int)
    requires 0 <= j < |m| && Distinct(m)
    ensures Distinct(Without(m, j)) && m[j] !in Without(m, j)
    ensures Elems(Without(m, j)) == Elems(m) - {m[j]}
  {
    var rest := Without(m, j);
    forall i | 0 <= i < |m| && i != j
      ensures m[i] in rest
    {
      assert m[i] == rest[if i < j then i else i - 1];
    }
  }

  // If a member is fully loaded and no member is loaded less, the group is full.
  lemma {:induction false} AllFull(root: CommSchedTarget, m: seq<CommSchedTarget>)
    requires root.maxLoad > 0 && root.curLoad >= root.maxLoad
    requires forall i :: 0 <= i < |m| ==> m[i].maxLoad > 0 && AtMost(root, m[i])
    ensures SumCur(m) >= SumMax(m)
  {
    if m != [] {
      AllFull(root, m[1..]);
      FullToo(root.curLoad, root.maxLoad, m[0].curLoad, m[0].maxLoad);
    }
  }

  lemma FullToo(c: int, m: int, d: int, n: int)
    requires m > 0 && n > 0 && c >= m && c * n <= d * m
    ensures d >= n
  {
    Scale(m, c, n);
    Unscale(n, d, m);
  }

  // What Acquire relies on: below the group's maximum, the root can take one more and nobody is
  // loaded less.
  lemma RootHasRoom(h: seq<CommSchedTarget>, m: seq<CommSchedTarget>)
    requires Positive(h) && Ordered(h) && Elems(h) == Elems(m)
    requires SumCur(m) < SumMax(m)
    ensures |h| > 0 && h[0].curLoad < h[0].maxLoad
    ensures forall i :: 0 <= i < |m| ==> AtMost(h[0], m[i])
  {
    hide AtMost;
    assert |m| > 0 && m[0] in Elems(h);
    forall i | 0 <= i < |m|
      ensures m[i].maxLoad > 0 && AtMost(h[0], m[i])
    {
      assert m[i] in Elems(h);
      var j :| 0 <= j < |h| && h[j] == m[i];
      RootIsMinimal(h, j);
    }
    if h[0].curLoad >= h[0].maxLoad {
      AllFull(h[0], m);
    }
  }

  /* ---------- the group ---------- */

  datatype Verdict = Done | Exists | Invalid | Busy | NotMember

  class CommSchedGroup {
    var tgHeap: array<CommSchedTarget?>
    var heapSize: int
    var curLoad: int
    var maxLoad: int
    ghost var heap: seq<CommSchedTarget>       // what the array holds
    ghost var members: seq<CommSchedTarget>    // the same targets, in the order they were added

    constructor ()
      ensures Valid() && members == [] && fresh(tgHeap)
    {
      tgHeap := new CommSchedTarget?[4](_ => null);
      heapSize, curLoad, maxLoad := 0, 0, 0;
      heap, members := [], [];
    }

    // The array holds `heap` and every target knows its place, except that position `k` is a gap.
    ghost predicate Holds(k: int)
      reads this`tgHeap, this`heap, tgHeap, heap`index
    {
      && |heap| <= tgHeap.Length
      && (forall i :: 0 <= i < |heap| && i != k ==> tgHeap[i] == heap[i] && heap[i].index == i)
      && (forall i :: 0 <= i < |heap| && i != k && 0 <= k < |heap| ==> heap[i] != heap[k])
    }

    ghost predicate HeapValid()
      reads this`tgHeap, this`heapSize, this`heap, tgHeap, heap`index, heap`curLoad
    {
      heapSize == |heap| && tgHeap.Length > 0 && Holds(-1) && Positive(heap) && Ordered(heap)
    }

    ghost predicate Belong(m: seq<CommSchedTarget>)
      reads m`group, m`curLoad
    {
      Distinct(m) && forall i :: 0 <= i < |m| ==> m[i].group == this && InBounds(m[i])
    }

    ghost predicate Valid()
      reads this, tgHeap, heap, members
    {
      && HeapValid() && Elems(heap) == Elems(members) && Belong(members)
      && curLoad == SumCur(members) && maxLoad == SumMax(members)
    }

    lemma BelongWithout(m: seq<CommSchedTarget>, j: int)
      requires Belong(m) && 0 <= j < |m|
      ensures Belong(Without(m, j)) && m[j] !in Without(m, j)
      ensures Elems(Without(m, j)) == Elems(m) - {m[j]}
    {
      WithoutDistinct(m, j);
    }

    lemma BelongAgain(m: seq<CommSchedTarget>, j: int)
      requires 0 <= j < |m| && Distinct(m) && Belong(Without(m, j)) && m[j].group == this && InBounds(m[j])
      ensures Belong(m)
    {
      var rest := Without(m, j);
      forall i | 0 <= i < |m|
        ensures m[i].group == this && InBounds(m[i])
      {
        assert i != j ==> m[i] == rest[if i < j then i else i - 1];
      }
    }

    lemma BelongWith(m: seq<CommSchedTarget>, t: CommSchedTarget)
      requires Belong(m) && t !in m && t.group == this && InBounds(t)
      ensures Belong(m + [t])
    {
    }

    // Fills the gap at position `to` with the target at `from`, which leaves the gap there.
    method Shift(from: int, to: int)
      requires 0 <= from < |heap| && 0 <= to < |heap| && from != to && Holds(to)
      modifies tgHeap, this`heap, {heap[from]}`index
      ensures heap == Swap(old(heap), to, from) && Holds(from)
      ensures heap[from] == old(heap[to]) && |heap| == |old(heap)|
      ensures Elems(heap) == Elems(old(heap))
    {
      SwapElems(heap, to, from);
      var target := tgHeap[from];
      tgHeap[to] := target;
      target.index := to;
      heap := Swap(heap, to, from);
    }

    // One step up: the gap changes places with its parent.
    method ShiftDown(index: int)
      requires 0 < index < |heap| && Holds(index) && Positive(heap) && OrderedAround(heap, index)
      requires AtMost(heap[index], heap[Parent(index)])
      modifies tgHeap, this`heap, {heap[Parent(index)]}`index
      ensures Holds(Parent(index)) && Positive(heap) && |heap| == |old(heap)|
      ensures OrderedAround(heap, Parent(index)) && BelowFits(heap, Parent(index))
      ensures heap[Parent(index)] == old(heap[index]) && Elems(heap) == Elems(old(heap))
      ensures heap == Swap(old(heap), index, Parent(index))
    {
      hide AtMost, OrderedAround, BelowFits, Positive;
      SiftUp(heap, index);
      Shift(Parent(index), index);
    }

    // One step down: the gap changes places with a child.
    method ShiftUp(top: int, child: int)
      requires 0 <= top < child < |heap| && Holds(top) && Positive(heap) && OrderedAround(heap, top)
      requires AboveFits(heap, top) && Lightest(heap, top, child) && AtMost(heap[child], heap[top])
      modifies tgHeap, this`heap, {heap[child]}`index
      ensures Holds(child) && Positive(heap) && |heap| == |old(heap)|
      ensures OrderedAround(heap, child) && AboveFits(heap, child)
      ensures heap[child] == old(heap[top]) && Elems(heap) == Elems(old(heap))
      ensures heap == Swap(old(heap), top, child)
    {
      hide AtMost, OrderedAround, AboveFits, Lightest, Positive;
      SiftDown(heap, top, child);
      Shift(child, top);
    }

    // Closes the gap with the target that has been on its way.
    method Place(target: CommSchedTarget, index: int)
      requires 0 <= index < |heap| && heap[index] == target && Holds(index)
      modifies tgHeap, {target}`index
      ensures Holds(-1) && target.index == index
    {
      tgHeap[index] := target;
      target.index := index;
    }

    // Everybody whom `target` has passed on its way from `was` to `now` has moved one level down, and
    // is loaded more, or, with `swapOnEqual` 1, as much.
    static ghost predicate Passed(was: seq<CommSchedTarget>, now: seq<CommSchedTarget>, target: CommSchedTarget,
            swapOnEqual: int)
      requires |was| == |now|
      reads now`curLoad, target`curLoad
    {
      forall i :: 0 <= i < |now| ==>
        || now[i] == was[i] || now[i] == target
        || (i > 0 && now[i] == was[Parent(i)] && Passes(target, now[i], swapOnEqual))
    }

    static ghost predicate Passes(target: CommSchedTarget, other: CommSchedTarget, swapOnEqual: int)
      reads target`curLoad, other`curLoad
    {
      if swapOnEqual == 1 then AtMost(target, other) else !AtMost(other, target)
    }

    // `target` has gone as far as it can.
    static ghost predicate Arrived(h: seq<CommSchedTarget>, k: int, target: CommSchedTarget, swapOnEqual: int)
      requires 0 <= k < |h|
      reads h`curLoad, target`curLoad
    {
      k > 0 ==> !Passes(target, h[Parent(k)], swapOnEqual)
    }

    static lemma NobodyPassed(h: seq<CommSchedTarget>, target: CommSchedTarget, swapOnEqual: int)
      ensures Passed(h, h, target, swapOnEqual)
    {
    }

    static lemma PassOne(was: seq<CommSchedTarget>, now: seq<CommSchedTarget>, target: CommSchedTarget, k: int,
            swapOnEqual: int)
      requires |was| == |now| && 0 < k < |now| && now[k] == target && Passed(was, now, target, swapOnEqual)
      requires Passes(target, now[Parent(k)], swapOnEqual) && forall j :: 0 <= j < k ==> now[j] == was[j]
      ensures |Swap(now, k, Parent(k))| == |now| && Passed(was, Swap(now, k, Parent(k)), target, swapOnEqual)
      ensures forall j :: 0 <= j < Parent(k) ==> Swap(now, k, Parent(k))[j] == was[j]
    {
      hide Passes;
    }

    // Moves the target at `index0` up, past parents that are loaded more (or, with `swapOnEqual`
    // 1, as much).
    method HeapAdjust(index0: int, swapOnEqual: int)
      requires 0 <= index0 < |heap| && Holds(-1) && Positive(heap) && OrderedAround(heap, index0)
      requires swapOnEqual == 0 || swapOnEqual == 1
      modifies tgHeap, this`heap, Elems(heap)`index
      ensures Elems(heap) == Elems(old(heap)) && |heap| == |old(heap)|
      ensures Holds(-1) && Positive(heap)
      ensures 0 <= old(heap)[index0].index < |heap|
      ensures OrderedAround(heap, old(heap)[index0].index) && AboveFits(heap, old(heap)[index0].index)
      ensures old(BelowFits(heap, index0)) ==> BelowFits(heap, old(heap)[index0].index)
      ensures var target := old(heap)[index0];
        && heap[target.index] == target && Passed(old(heap), heap, target, swapOnEqual)
        && Arrived(heap, target.index, target, swapOnEqual)
        && (old(Arrived(heap, index0, heap[index0], swapOnEqual)) ==> heap == old(heap))
    {
      hide AtMost, TargetCmp, OrderedAround, BelowFits, Positive, Passed, Swap;
      var index := index0;
      var target := tgHeap[index];
      ghost var fits := BelowFits(heap, index0);
      ghost var was, stays := heap, Arrived(heap, index0, target, swapOnEqual);
      assert Passed(was, heap, target, swapOnEqual) by { NobodyPassed(was, target, swapOnEqual); }
      while index > 0
        invariant 0 <= index < |heap| && heap[index] == target && |heap| == |old(heap)|
        invariant Elems(heap) == Elems(old(heap))
        invariant Holds(index) && Positive(heap) && OrderedAround(heap, index)
        invariant fits ==> BelowFits(heap, index)
        invariant forall j :: 0 <= j < index ==> heap[j] == was[j]
        invariant Passed(was, heap, target, swapOnEqual) && (stays ==> heap == was && index == index0)
        decreases index
      {
        var parent := tgHeap[(index - 1) / 2];
        CmpAtMost(target, parent);
        AtMostTotal(target, parent);
        if TargetCmp(target, parent) < swapOnEqual {
          ElemAt(heap, Parent(index));
          ghost var before := heap;
          ShiftDown(index);
          PassOne(was, before, target, index, swapOnEqual);
          index := (index - 1) / 2;
        } else {
          break;
        }
      }
      Place(target, index);
    }

    // `x`, which comes from the level below, takes position `i` from `target`: it is loaded less than
    // `target`, and not more than its sibling; of two loaded the same, it is the left one.
    static ghost predicate Climbs(h: seq<CommSchedTarget>, i: int, x: CommSchedTarget, target: CommSchedTarget)
      requires 0 <= i
      reads h`curLoad, x`curLoad, target`curLoad
    {
      && !AtMost(target, x)
      && ((2 * i + 1 < |h| && x == h[2 * i + 1] && (2 * i + 2 < |h| ==> AtMost(x, h[2 * i + 2])))
          || (2 * i + 2 < |h| && x == h[2 * i + 2] && !AtMost(h[2 * i + 1], x)))
    }

    // Between `was` and `now`, nobody has moved but `target` and those who took its place.
    static ghost predicate Sunk(was: seq<CommSchedTarget>, now: seq<CommSchedTarget>, target: CommSchedTarget)
      requires |was| == |now|
      reads was`curLoad, now`curLoad, target`curLoad
    {
      forall i :: 0 <= i < |now| ==> now[i] == was[i] || now[i] == target || Climbs(was, i, now[i], target)
    }

    static lemma NobodySunk(h: seq<CommSchedTarget>, target: CommSchedTarget)
      ensures Sunk(h, h, target)
    {
    }

    static lemma SinkOne(was: seq<CommSchedTarget>, now: seq<CommSchedTarget>, target: CommSchedTarget, k: int, c: int)
      requires |was| == |now| && 0 <= k < c < |now| && now[k] == target && Sunk(was, now, target)
      requires forall j :: k < j < |now| ==> now[j] == was[j]
      requires Climbs(now, k, now[c], target)
      ensures |Swap(now, k, c)| == |now| && Sunk(was, Swap(now, k, c), target)
      ensures forall j :: c < j < |now| ==> Swap(now, k, c)[j] == was[j]
    {
      assert Climbs(was, k, now[c], target);
      hide Climbs;
    }

    static lemma OnlyClimbs(h: seq<CommSchedTarget>, k: int, target: CommSchedTarget)
      requires 0 <= k && |h| == 2 * k + 2 && !AtMost(target, h[2 * k + 1])
      ensures Climbs(h, k, h[2 * k + 1], target)
    {
    }

    static lemma LeftIsChosen(h: seq<CommSchedTarget>, k: int)
      requires Positive(h) && 0 <= k && 2 * k + 2 < |h|
      requires !AtMost(h[k], h[2 * k + 1]) && AtMost(h[2 * k + 1], h[2 * k + 2])
      ensures Lightest(h, k, 2 * k + 1) && AtMost(h[2 * k + 1], h[k]) && Climbs(h, k, h[2 * k + 1], h[k])
    {
      AtMostTotal(h[2 * k + 1], h[k]);
      LightestOfTwo(h, k, 2 * k + 1, 2 * k + 2);
    }

    static lemma RightIsChosen(h: seq<CommSchedTarget>, k: int)
      requires Positive(h) && 0 <= k && 2 * k + 2 < |h|
      requires !AtMost(h[2 * k + 1], h[2 * k + 2]) || AtMost(h[k], h[2 * k + 1])
      requires !AtMost(h[k], h[2 * k + 1]) || !AtMost(h[k], h[2 * k + 2])
      ensures Lightest(h, k, 2 * k + 2) && AtMost(h[2 * k + 2], h[k]) && Climbs(h, k, h[2 * k + 2], h[k])
    {
      var x, left, right := h[k], h[2 * k + 1], h[2 * k + 2];
      AtMostTotal(left, right);
      AtMostTotal(x, right);
      AtMostTotal(x, left);
      assert left.maxLoad > 0 && right.maxLoad > 0 && x.maxLoad > 0;
      hide AtMost;
      if AtMost(x, left) {
        if AtMost(left, right) { AtMostTransitive(x, left, right); }
      } else {
        AtMostTransitive(right, left, x);
      }
      LightestOfTwo(h, k, 2 * k + 2, 2 * k + 1);
    }

    // The child that takes the place of the target at `top`: the lightest, if it is lighter.
    method LighterChild(top: int, target: CommSchedTarget) returns (child: int)
      requires 0 <= top && 2 * top + 2 < |heap| && Holds(top) && Positive(heap) && heap[top] == target
      ensures child == -1 ==> AtMost(target, heap[2 * top + 1]) && AtMost(target, heap[2 * top + 2])
      ensures child != -1 ==>
        && (child == 2 * top + 1 || child == 2 * top + 2) && Lightest(heap, top, child)
        && AtMost(heap[child], target) && Climbs(heap, top, heap[child], target)
    {
      hide AtMost, TargetCmp, Positive, Lightest, Climbs;
      var i := 2 * top + 1;
      var left, right := tgHeap[i], tgHeap[i + 1];
      CmpAtMost(left, target);
      CmpAtMost(right, left);
      CmpAtMost(right, target);
      if TargetCmp(left, target) < 0 {
        if TargetCmp(right, left) < 0 {
          RightIsChosen(heap, top);
          child := i + 1;
        } else {
          LeftIsChosen(heap, top);
          child := i;
        }
      } else if TargetCmp(right, target) < 0 {
        RightIsChosen(heap, top);
        child := i + 1;
      } else {
        child := -1;
      }
    }

    // Moves the target at `top0` down, past children that are loaded less.
    method Heapify(top0: int)
      requires 0 <= top0 < |heap| == heapSize && Holds(-1) && Positive(heap)
      requires OrderedAround(heap, top0) && AboveFits(heap, top0)
      modifies tgHeap, this`heap, Elems(heap)`index
      ensures Elems(heap) == Elems(old(heap)) && |heap| == |old(heap)|
      ensures Holds(-1) && Positive(heap) && Ordered(heap)
      ensures Sunk(old(heap), heap, old(heap)[top0])
    {
      hide AtMost, TargetCmp, OrderedAround, AboveFits, BelowFits, Lightest, Positive, Ordered, Parent, Sunk, Climbs;
      hide Swap;
      var top := top0;
      var target := tgHeap[top];
      ghost var was := heap;
      NobodySunk(was, target);
      var last := heapSize - 1;
      var i := 2 * top + 1;
      while i < last
        invariant 0 <= top < |heap| && heap[top] == target && |heap| == |old(heap)|
        invariant i == 2 * top + 1
        invariant Elems(heap) == Elems(old(heap))
        invariant Holds(top) && Positive(heap) && OrderedAround(heap, top) && AboveFits(heap, top)
        invariant Sunk(was, heap, target) && forall j :: top < j < |heap| ==> heap[j] == was[j]
        decreases |heap| - top
      {
        var child := LighterChild(top, target);
        if child == -1 {
          StayAbove(heap, top, i);
          AroundIsOrdered(heap, top);
          Place(target, top);
          return;
        }
        ElemAt(heap, child);
        ghost var before := heap;
        ShiftUp(top, child);
        SinkOne(was, before, target, top, child);
        top := child;
        i := 2 * top + 1;
      }
      if i == last {
        var child := tgHeap[i];
        CmpAtMost(child, target);
        LightestAlone(heap, top);
        if TargetCmp(child, target) < 0 {
          ElemAt(heap, i);
          AtMostTotal(target, child);
          OnlyClimbs(heap, top, target);
          ghost var before := heap;
          ShiftUp(top, i);
          SinkOne(was, before, target, top, i);
          top := i;
          LeafFits(heap, top);
        } else {
          LightestFits(heap, top, i);
        }
      } else {
        LeafFits(heap, top);
      }
      AroundIsOrdered(heap, top);
      Place(target, top);
    }

    // The array at twice its size, as realloc leaves it.
    method Grow()
      requires heapSize == |heap| == tgHeap.Length && tgHeap.Length > 0 && Holds(-1)
      modifies this`tgHeap
      ensures fresh(tgHeap) && tgHeap.Length == 2 * old(tgHeap.Length) && Holds(-1)
    {
      var newBase := new CommSchedTarget?[2 * tgHeap.Length](_ => null);
      for i := 0 to heapSize
        modifies newBase
        invariant forall k :: 0 <= k < i ==> newBase[k] == tgHeap[k]
      {
        newBase[i] := tgHeap[i];
      }
      tgHeap := newBase;
    }

    method HeapInsert(target: CommSchedTarget)
      requires HeapValid() && target !in heap && target.maxLoad > 0
      modifies this`tgHeap, this`heapSize, this`heap, tgHeap, Elems(heap)`index, {target}`index
      ensures HeapValid() && Elems(heap) == Elems(old(heap)) + {target}
      ensures tgHeap == old(tgHeap) || fresh(tgHeap)
      ensures |heap| == |old(heap)| + 1 && Passed(old(heap) + [target], heap, target, 0)
    {
      hide Positive, Ordered, OrderedAround, AboveFits, BelowFits, Parent, Passed, Arrived;
      if heapSize == tgHeap.Length {
        Grow();
      }
      AppendedAround(heap, target);
      tgHeap[heapSize] := target;
      target.index := heapSize;
      heap := heap + [target];
      hide Holds;
      HeapAdjust(heapSize, 0);
      AroundIsOrdered(heap, target.index);
      heapSize := heapSize + 1;
    }

    // Puts the last target in the place of the one at `index`.
    method MoveLast(index: int)
      requires 0 <= index < heapSize == |heap| - 1 && Holds(-1)
      modifies this`heap, tgHeap, {heap[heapSize]}`index
      ensures heap == Replaced(old(heap), index) && Holds(-1)
    {
      var target := tgHeap[heapSize];
      tgHeap[index] := target;
      target.index := index;
      heap := Replaced(heap, index);
    }

    // The up-then-down repair at a position that got another target.
    method Mend(index: int, target: CommSchedTarget)
      requires 0 <= index < heapSize == |heap| && heap[index] == target && Holds(-1) && Positive(heap)
      requires OrderedAround(heap, index)
      modifies tgHeap, this`heap, Elems(heap)`index
      ensures Elems(heap) == Elems(old(heap)) && |heap| == |old(heap)|
      ensures Holds(-1) && Positive(heap) && Ordered(heap)
    {
      hide Positive, Ordered, OrderedAround, AboveFits, BelowFits, Holds;
      HeapAdjust(index, 0);
      Heapify(target.index);
    }

    lemma HeapDistinct()
      requires Holds(-1)
      ensures Distinct(heap)
    {
    }

    // The last position goes.
    method DropLast()
      requires 0 <= heapSize == |heap| - 1 && Holds(-1) && Positive(heap) && Ordered(heap) && Distinct(heap)
        && tgHeap.Length > 0
      modifies this`heap
      ensures HeapValid() && Elems(heap) == Elems(old(heap)) - {old(heap)[heapSize]}
    {
      PrefixOrdered(heap);
      PrefixElems(heap);
      ghost var rest := heap[..heapSize];
      assert forall i :: 0 <= i < heapSize ==> rest[i] == heap[i];
      hide Positive, Ordered, Elems, Distinct;
      heap := rest;
    }

    method HeapRemove(index: int)
      requires HeapValid() && 0 <= index < heapSize
      modifies this`heapSize, this`heap, tgHeap, Elems(heap)`index
      ensures HeapValid() && Elems(heap) == Elems(old(heap)) - {old(heap)[index]}
    {
      HeapDistinct();
      heapSize := heapSize - 1;
      if index != heapSize {
        var target := tgHeap[heapSize];
        ReplacedAround(heap, index);
        ReplacedElems(heap, index);
        ElemAt(heap, heapSize);
        assert Replaced(heap, index)[index] == target;
        hide *;
        MoveLast(index);
        Mend(index, target);
      } else {
        hide *;
        DropLast();
      }
    }

    /* ----- loads ----- */

    // A member apart from the others.
    lemma Rest(target: CommSchedTarget) returns (j: int, rest: seq<CommSchedTarget>)
      requires Valid() && target in members
      ensures 0 <= j < |members| && members[j] == target && rest == Without(members, j)
      ensures target !in rest && Belong(rest) && Distinct(members)
      ensures target.group == this && InBounds(target)
      ensures curLoad == SumCur(rest) + target.curLoad
      ensures 0 <= target.index < |heap| && heap[target.index] == target
    {
      j := Places(target);
      rest := Without(members, j);
      BelongWithout(members, j);
      WithoutOne(members, j);
    }

    lemma Count(target: CommSchedTarget, j: int, rest: seq<CommSchedTarget>)
      requires 0 <= j < |members| && members[j] == target && rest == Without(members, j)
      requires Belong(rest) && Distinct(members) && target.group == this && InBounds(target)
      requires curLoad == SumCur(rest) + target.curLoad
      ensures Belong(members) && curLoad == SumCur(members)
    {
      BelongAgain(members, j);
      WithoutOne(members, j);
    }

    // One more connection on the target at position `k` of the heap.
    method Heavier(target: CommSchedTarget, ghost k: int)
      requires HeapValid() && 0 <= k < |heap| && heap[k] == target
      modifies {target}`curLoad
      ensures target.curLoad == old(target.curLoad) + 1
      ensures OrderedAround(heap, k) && AboveFits(heap, k)
    {
      OrderedIsAround(heap, k);
      ghost var p := if k > 0 then heap[Parent(k)] else target;
      assert k > 0 ==> p != target && p.curLoad * target.maxLoad <= (target.curLoad + 1) * p.maxLoad;
      target.curLoad := target.curLoad + 1;
      assert k > 0 ==> AtMost(p, target);
      hide AtMost;
    }

    method Lighter(target: CommSchedTarget, ghost k: int)
      requires HeapValid() && 0 <= k < |heap| && heap[k] == target
      modifies {target}`curLoad
      ensures target.curLoad == old(target.curLoad) - 1
      ensures OrderedAround(heap, k) && BelowFits(heap, k)
    {
      OrderedIsAround(heap, k);
      assert forall i :: 0 <= i < |heap| && i != k ==> heap[i] != target;
      forall i | 0 < i < |heap| && Parent(i) == k
        ensures (target.curLoad - 1) * heap[i].maxLoad <= heap[i].curLoad * target.maxLoad
      {
        LessLoad(target, heap[i]);
      }
      hide Holds, Ordered, Positive;
      target.curLoad := target.curLoad - 1;
      assert BelowFits(heap, k) by { hide OrderedAround; }
      assert OrderedAround(heap, k) by { hide AtMost, BelowFits; }
    }

    // One connection more on a member.
    method Load(target: CommSchedTarget)
      requires Valid() && target in members && target.curLoad < target.maxLoad
      modifies {target}`curLoad, this`curLoad
      ensures target.curLoad == old(target.curLoad) + 1 && curLoad == old(curLoad) + 1
      ensures Belong(members) && curLoad == SumCur(members)
      ensures 0 <= target.index < |heap| && heap[target.index] == target
      ensures OrderedAround(heap, target.index) && AboveFits(heap, target.index)
    {
      ghost var j, rest := Rest(target);
      hide HeapValid, OrderedAround, AboveFits, SumCur, SumMax, Belong, Without, Distinct;
      Heavier(target, target.index);
      curLoad := curLoad + 1;
      Count(target, j, rest);
    }

    // One connection less.
    method Unload(target: CommSchedTarget)
      requires Valid() && target in members && target.curLoad > 0
      modifies {target}`curLoad, this`curLoad
      ensures target.curLoad == old(target.curLoad) - 1 && curLoad == old(curLoad) - 1
      ensures Belong(members) && curLoad == SumCur(members)
      ensures 0 <= target.index < |heap| && heap[target.index] == target
      ensures OrderedAround(heap, target.index) && BelowFits(heap, target.index)
    {
      ghost var j, rest := Rest(target);
      hide HeapValid, OrderedAround, BelowFits, SumCur, SumMax, Belong, Without, Distinct;
      Lighter(target, target.index);
      curLoad := curLoad - 1;
      Count(target, j, rest);
    }

    lemma NotAmong(target: CommSchedTarget)
      requires Belong(members)
      ensures target.group != this ==> target !in members
    {
    }

    method Attach(target: CommSchedTarget)
      requires Valid() && InBounds(target) && target !in members
      modifies this, tgHeap, Elems(members)`index, {target}`index, {target}`group
      ensures Valid() && (tgHeap == old(tgHeap) || fresh(tgHeap))
      ensures members == old(members) + [target] && target.group == this
    {
      hide HeapValid, Belong, SumCur, SumMax;
      SumWith(members, target);
      ghost var all := members + [target];
      assert Elems(all) == Elems(members) + {target};
      HeapInsert(target);
      target.group := this;
      BelongWith(members, target);
      maxLoad := maxLoad + target.maxLoad;
      curLoad := curLoad + target.curLoad;
      members := all;
    }

    // CommSchedGroup::add.
    method Add(target: CommSchedTarget) returns (verdict: Verdict)
      requires Valid() && InBounds(target) && (target.group == this ==> target in members)
      modifies this, tgHeap, Elems(members)`index, {target}`index, {target}`group
      ensures Valid() && (tgHeap == old(tgHeap) || fresh(tgHeap))
      ensures verdict == (if old(target.group) == this then Exists
        else if old(target.group) != null then Invalid
        else if target.waitCnt != 0 then Busy else Done)
      ensures members == if verdict == Done then old(members) + [target] else old(members)
    {
      NotAmong(target);
      hide Valid;
      if target.group == null && target.waitCnt == 0 {
        Attach(target);
        verdict := Done;
      } else if target.group == this {
        verdict := Exists;
      } else if target.group != null {
        verdict := Invalid;
      } else {
        verdict := Busy;
      }
    }

    // Where a member stands in the heap and among the members.
    lemma Places(target: CommSchedTarget) returns (j: int)
      requires Valid() && target in members
      ensures 0 <= j < |members| && members[j] == target && target !in Without(members, j)
      ensures 0 <= target.index < |heap| == heapSize && heap[target.index] == target
    {
      j :| 0 <= j < |members| && members[j] == target;
      WithoutDistinct(members, j);
      ElemAt(members, j);
    }

    // CommSchedGroup::remove.
    method Remove(target: CommSchedTarget) returns (verdict: Verdict)
      requires Valid() && (target.group == this ==> target in members)
      modifies this`heapSize, this`heap, this`members, this`curLoad, this`maxLoad, tgHeap, Elems(members)`index,
        {target}`group
      ensures Valid()
      ensures verdict == (if old(target.group) != this then NotMember
        else if target.waitCnt != 0 then Busy else Done)
      ensures verdict == Done ==> target.group == null && (exists j ::
        0 <= j < |old(members)| && old(members)[j] == target && members == Without(old(members), j))
      ensures verdict != Done ==> members == old(members) && target.group == old(target.group)
    {
      hide HeapValid, Belong, Without, SumCur, SumMax;
      if target.group == this && target.waitCnt == 0 {
        ghost var j := Places(target);
        WithoutOne(members, j);
        BelongWithout(members, j);
        ghost var rest := Without(members, j);
        assert allocated(rest);
        HeapRemove(target.index);
        maxLoad := maxLoad - target.maxLoad;
        curLoad := curLoad - target.curLoad;
        members := rest;
        target.group := null;
        verdict := Done;
      } else if target.group != this {
        verdict := NotMember;
      } else {
        verdict := Busy;
      }
    }

    // What heapify does for a target that became heavier.
    method Sink(target: CommSchedTarget)
      requires 0 <= target.index < |heap| == heapSize && heap[target.index] == target && Holds(-1) && Positive(heap)
      requires OrderedAround(heap, target.index) && AboveFits(heap, target.index)
      modifies tgHeap, this`heap, Elems(heap)`index
      ensures Elems(heap) == Elems(old(heap)) && |heap| == |old(heap)|
      ensures Holds(-1) && Positive(heap) && Ordered(heap) && Sunk(old(heap), heap, target)
    {
      hide *;
      Heapify(target.index);
    }

    // A connection of `target` is taken, and the target moves down.
    method Take(target: CommSchedTarget)
      requires Valid() && target in members && target.curLoad < target.maxLoad
      modifies this`heap, this`curLoad, tgHeap, Elems(members)`index, {target}`curLoad
      ensures Valid() && target.curLoad == old(target.curLoad) + 1 && curLoad == old(curLoad) + 1
      ensures |heap| == |old(heap)| && Sunk(old(heap), heap, target)
    {
      assert Holds(-1) && Positive(heap) && tgHeap.Length > 0;
      hide *;
      Load(target);
      Sink(target);
    }

    // `target`, at position `k` of `was` before, has passed those loaded more, or as much, up to one
    // that is not; and if its parent was such a one, nothing has moved.
    ghost predicate Risen(was: seq<CommSchedTarget>, k: int, target: CommSchedTarget, swapOnEqual: int)
      reads this`heap, heap`curLoad, was`curLoad, target`index, target`curLoad
    {
      && 0 <= target.index < |heap| == |was| && heap[target.index] == target && 0 <= k < |was|
      && Passed(was, heap, target, swapOnEqual) && Arrived(heap, target.index, target, swapOnEqual)
      && (Arrived(was, k, target, swapOnEqual) ==> heap == was)
    }

    // What heap_adjust does for a target that became lighter.
    method Rise(target: CommSchedTarget, swapOnEqual: int)
      requires 0 <= target.index < |heap| && heap[target.index] == target && Holds(-1) && Positive(heap)
      requires OrderedAround(heap, target.index) && BelowFits(heap, target.index)
      requires swapOnEqual == 0 || swapOnEqual == 1
      modifies tgHeap, this`heap, Elems(heap)`index
      ensures Elems(heap) == Elems(old(heap)) && |heap| == |old(heap)|
      ensures Holds(-1) && Positive(heap) && Ordered(heap)
      ensures Risen(old(heap), old(target.index), target, swapOnEqual)
    {
      hide Holds, Positive, OrderedAround, AboveFits, BelowFits, Ordered, Arrived, Passed;
      HeapAdjust(target.index, swapOnEqual);
      AroundIsOrdered(heap, target.index);
    }

    // A connection of `target` is given back, and the target moves up; `idle` says that the
    // connection stays open, and makes it pass targets loaded as much.
    method Give(target: CommSchedTarget, idle: bool)
      requires Valid() && target in members && target.curLoad > 0
      modifies this`heap, this`curLoad, tgHeap, Elems(members)`index, {target}`curLoad
      ensures Valid() && target.curLoad == old(target.curLoad) - 1 && curLoad == old(curLoad) - 1
      ensures Risen(old(heap), old(target.index), target, if idle then 1 else 0)
    {
      assert Holds(-1) && Positive(heap) && tgHeap.Length > 0;
      hide *;
      Unload(target);
      Rise(target, if idle then 1 else 0);
    }

    // CommSchedGroup::acquire.  The state is the one in which waiting ended, and `failure` what
    // ended it while the group was still full: EAGAIN for a caller who does not wait.
    method Acquire(failure: int) returns (ret: int, target: CommSchedTarget?)
      requires Valid() && failure != 0
      modifies this`heap, this`curLoad, tgHeap, Elems(members)`index, Elems(members)`curLoad
      ensures Valid()
      ensures old(curLoad) >= maxLoad ==> ret == failure && target == null && curLoad == old(curLoad)
      ensures old(curLoad) < maxLoad ==> ret == 0 && target != null && target in members
      ensures old(curLoad) < maxLoad ==>
        old(target.curLoad) < target.maxLoad && target.curLoad == old(target.curLoad) + 1
      ensures old(curLoad) < maxLoad ==> forall i :: 0 <= i < |members| ==> old(AtMost(target, members[i]))
      ensures old(curLoad) < maxLoad ==>
        |heap| == |old(heap)| && target == old(heap[0]) && Sunk(old(heap), heap, target)
      ensures forall i :: 0 <= i < |members| && members[i] != target ==> members[i].curLoad == old(members[i].curLoad)
    {
      hide AtMost;
      if curLoad >= maxLoad {
        ret, target := failure, null;
      } else {
        RootHasRoom(heap, members);
        ElemAt(heap, 0);
        target := tgHeap[0];
        Take(target);
        ret := 0;
      }
    }
  }
}
